/** The sink that drops events with ignored media types or actions. */
module IgnoredSink {
  import opened EventQueue

  /** The events that pass the filter, in order. */
  function Kept(events: seq<Event>, types: set<string>, actions: set<string>): seq<Event> {
    if events == [] then []
    else
      var rest := Kept(events[1..], types, actions);
      if events[0].mediaType in types || events[0].action in actions then rest else [events[0]] + rest
  }

  lemma {:induction false} KeptAppend(a: seq<Event>, b: seq<Event>, types: set<string>, actions: set<string>)
    ensures Kept(a + b, types, actions) == Kept(a, types, actions) + Kept(b, types, actions)
  {
    if a == [] { assert a + b == b; }
    else {
      assert (a + b)[1..] == a[1..] + b;
      KeptAppend(a[1..], b, types, actions);
    }
  }

  /** Filtering by media type and then by action is filtering by both. */
  lemma {:induction false} KeptTwice(events: seq<Event>, types: set<string>, actions: set<string>)
    ensures Kept(Kept(events, types, {}), {}, actions) == Kept(events, types, actions)
  {
    if events != [] {
      KeptTwice(events[1..], types, actions);
      var once := Kept(events, types, {});
      if events[0].mediaType !in types { assert once[1..] == Kept(events[1..], types, {}); }
    }
  }

  /** Forwards what is kept, if anything; the sink is not called for nothing. */
  method Write(events: seq<Event>, types: set<string>, actions: set<string>)
    returns (forwarded: seq<Event>, called: bool)
    ensures called <==> Kept(events, types, actions) != []
    ensures forwarded == Kept(events, types, actions)
  {
    KeptTwice(events, types, actions);
    var kept: seq<Event> := [];
    for i := 0 to |events|
      invariant kept == Kept(events[..i], types, {})
    {
      assert events[..i + 1] == events[..i] + [events[i]];
      KeptAppend(events[..i], [events[i]], types, {});
      if events[i].mediaType !in types { kept := kept + [events[i]]; }
    }
    assert events[..|events|] == events;
    if |kept| == 0 { return [], false; }
    forwarded := [];
    for i := 0 to |kept|
      invariant forwarded == Kept(kept[..i], {}, actions)
    {
      assert kept[..i + 1] == kept[..i] + [kept[i]];
      KeptAppend(kept[..i], [kept[i]], {}, actions);
      if kept[i].action !in actions { forwarded := forwarded + [kept[i]]; }
    }
    assert kept[..|kept|] == kept;
    called := |forwarded| != 0;
  }
}
