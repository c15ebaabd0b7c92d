/** What tags are: names with a link to a digest. */
module Tagging {

  type Digest = string

  /** The current link of a tag: missing, malformed or unreadable, or the digest it names. */
  datatype Link = Absent | Broken | To(digest: Digest)
}
