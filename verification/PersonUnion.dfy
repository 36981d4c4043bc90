// What a run of alias calls that do not overlap makes of the partition of distinct ids into persons: the
// equivalence generated by the pairs that were joined.
module PersonUnion {
  import opened PersonTables
  import opened PersonSequential

  datatype Call = Call(previous: Key, current: Key, identify: bool, now: int)

  datatype Link = Link(a: Key, b: Key)

  predicate LinkedBy(links: seq<Link>, x: Key, y: Key) {
    Link(x, y) in links || Link(y, x) in links
  }

  ghost predicate IsPath(links: seq<Link>, path: seq<Key>) {
    path != [] && forall i :: 0 <= i < |path| - 1 ==> LinkedBy(links, path[i], path[i + 1])
  }

  ghost predicate Connected(links: seq<Link>, x: Key, y: Key) {
    exists path: seq<Key> :: IsPath(links, path) && path[0] == x && path[|path| - 1] == y
  }

  ghost predicate Mentioned(links: seq<Link>, x: Key) {
    exists y :: LinkedBy(links, x, y)
  }

  // The call joins two distinct ids: they differ, and it is not an $identify that is refused.
  predicate Joins(t: Tables, call: Call) {
    call.previous != call.current && !Refuses(t, call.previous, call.current, call.identify)
  }

  ghost predicate IsRun(ts: seq<Tables>, calls: seq<Call>) {
    && |ts| == |calls| + 1
    && ts[0].ids == map[]
    && forall i :: 0 <= i < |calls| ==> Follows(ts[i], calls[i], ts[i + 1])
  }

  ghost predicate Follows(t: Tables, call: Call, next: Tables) {
    && call.previous.team == call.current.team
    && AliasOutcome(t, next, call.previous, call.current, call.identify, call.now)
  }

  function Links(ts: seq<Tables>, calls: seq<Call>): seq<Link>
    requires |ts| == |calls| + 1
    decreases |calls|
  {
    if calls == [] then []
    else
      var n := |calls| - 1;
      Links(ts[..n + 1], calls[..n]) + if Joins(ts[n], calls[n]) then [Link(calls[n].previous, calls[n].current)] else []
  }

  // Same person exactly when a chain of joined pairs leads from one to the other.
  ghost predicate IsClosure(t: Tables, links: seq<Link>) {
    forall x, y :: SamePerson(t, x, y) <==> Mentioned(links, x) && Connected(links, x, y)
  }

  // ----- paths -----

  lemma ConnectedSelf(links: seq<Link>, x: Key)
    ensures Connected(links, x, x)
  {
    assert IsPath(links, [x]);
  }

  lemma ConnectedLink(links: seq<Link>, x: Key, y: Key)
    requires LinkedBy(links, x, y)
    ensures Connected(links, x, y)
  {
    assert IsPath(links, [x, y]);
  }

  lemma ConnectedBack(links: seq<Link>, x: Key, y: Key)
    requires Connected(links, x, y)
    ensures Connected(links, y, x)
  {
    var path: seq<Key> :| IsPath(links, path) && path[0] == x && path[|path| - 1] == y;
    var n := |path|;
    var back := seq(n, i requires 0 <= i < n => path[n - 1 - i]);
    forall i | 0 <= i < n - 1
      ensures LinkedBy(links, back[i], back[i + 1])
    {
      assert LinkedBy(links, path[n - 2 - i], path[n - 2 - i + 1]);
    }
    assert IsPath(links, back);
  }

  lemma ConnectedThrough(links: seq<Link>, x: Key, y: Key, z: Key)
    requires Connected(links, x, y) && Connected(links, y, z)
    ensures Connected(links, x, z)
  {
    var p: seq<Key> :| IsPath(links, p) && p[0] == x && p[|p| - 1] == y;
    var q: seq<Key> :| IsPath(links, q) && q[0] == y && q[|q| - 1] == z;
    var path := p + q[1..];
    forall i | 0 <= i < |path| - 1
      ensures LinkedBy(links, path[i], path[i + 1])
    {
      if i < |p| - 1 {
        assert LinkedBy(links, p[i], p[i + 1]);
      } else {
        assert LinkedBy(links, q[i - |p| + 1], q[i - |p| + 1 + 1]);
      }
    }
    assert IsPath(links, path);
  }

  lemma ConnectedMore(links: seq<Link>, more: seq<Link>, x: Key, y: Key)
    requires Connected(links, x, y) && forall l <- links :: l in more
    ensures Connected(more, x, y)
  {
    var path: seq<Key> :| IsPath(links, path) && path[0] == x && path[|path| - 1] == y;
    forall i | 0 <= i < |path| - 1
      ensures LinkedBy(more, path[i], path[i + 1])
    {
      assert LinkedBy(links, path[i], path[i + 1]);
    }
    assert IsPath(more, path);
  }

  // ----- one more pair -----

  // From the tables to the links: what is one person after the step is connected.
  lemma JoinedIsConnected(t: Tables, next: Tables, links: seq<Link>, a: Key, b: Key, x: Key, y: Key)
    requires IsClosure(t, links) && Unites(t, next, a, b) && SamePerson(next, x, y)
    ensures var more := links + [Link(a, b)]; Mentioned(more, x) && Connected(more, x, y)
  {
    hide Connected;
    var more := links + [Link(a, b)];
    assert LinkedBy(more, a, b) && LinkedBy(more, b, a);
    if SamePerson(t, x, y) {
      MentionedMore(links, more, x);
      ConnectedMore(links, more, x, y);
    } else {
      ClassIsConnected(t, links, a, b, x);
      ClassIsConnected(t, links, a, b, y);
      ConnectedBack(more, y, a);
      ConnectedThrough(more, x, a, y);
    }
  }

  lemma MentionedMore(links: seq<Link>, more: seq<Link>, x: Key)
    requires Mentioned(links, x) && forall l <- links :: l in more
    ensures Mentioned(more, x)
  {
    var y :| LinkedBy(links, x, y);
    assert LinkedBy(more, x, y);
  }

  lemma ClassIsConnected(t: Tables, links: seq<Link>, a: Key, b: Key, x: Key)
    requires IsClosure(t, links) && (InClassOf(t, x, a) || InClassOf(t, x, b))
    ensures var more := links + [Link(a, b)]; Mentioned(more, x) && Connected(more, x, a)
  {
    hide Connected;
    var more := links + [Link(a, b)];
    assert LinkedBy(more, a, b) && LinkedBy(more, b, a);
    var end := if InClassOf(t, x, a) then a else b;
    if x == end {
      ConnectedSelf(more, x);
    } else {
      MentionedMore(links, more, x);
      ConnectedMore(links, more, x, end);
    }
    ConnectedLink(more, b, a);
    if end == b {
      ConnectedThrough(more, x, b, a);
    }
  }

  // And back: what is linked is one person after the step, and so is what a path connects.
  lemma LinkedIsJoined(t: Tables, next: Tables, links: seq<Link>, a: Key, b: Key, x: Key, y: Key)
    requires IsClosure(t, links) && Unites(t, next, a, b) && LinkedBy(links + [Link(a, b)], x, y)
    ensures SamePerson(next, x, y)
  {
    if LinkedBy(links, x, y) {
      ConnectedLink(links, x, y);
      assert Mentioned(links, x);
      assert SamePerson(t, x, y);
    }
  }

  lemma {:induction false} PathIsJoined(t: Tables, next: Tables, links: seq<Link>, a: Key, b: Key, path: seq<Key>)
    requires IsClosure(t, links) && Unites(t, next, a, b) && IsPath(links + [Link(a, b)], path)
    requires path[0] in next.ids
    ensures SamePerson(next, path[0], path[|path| - 1])
  {
    hide IsClosure, Unites;
    var more := links + [Link(a, b)];
    if |path| > 1 {
      assert LinkedBy(more, path[0], path[0 + 1]);
      LinkedIsJoined(t, next, links, a, b, path[0], path[1]);
      forall i | 0 <= i < |path[1..]| - 1
        ensures LinkedBy(more, path[1..][i], path[1..][i + 1])
      {
        assert LinkedBy(more, path[i + 1], path[i + 1 + 1]);
      }
      PathIsJoined(t, next, links, a, b, path[1..]);
    }
  }

  lemma UniteStep(t: Tables, next: Tables, links: seq<Link>, a: Key, b: Key)
    requires IsClosure(t, links) && Unites(t, next, a, b)
    ensures IsClosure(next, links + [Link(a, b)])
  {
    hide Unites;
    var more := links + [Link(a, b)];
    forall x, y
      ensures SamePerson(next, x, y) <==> Mentioned(more, x) && Connected(more, x, y)
    {
      if SamePerson(next, x, y) {
        JoinedIsConnected(t, next, links, a, b, x, y);
      }
      if Mentioned(more, x) && Connected(more, x, y) {
        var z :| LinkedBy(more, x, z);
        LinkedIsJoined(t, next, links, a, b, x, z);
        var path: seq<Key> :| IsPath(more, path) && path[0] == x && path[|path| - 1] == y;
        PathIsJoined(t, next, links, a, b, path);
      }
    }
  }

  lemma StepIsClosure(t: Tables, call: Call, next: Tables, links: seq<Link>)
    requires IsClosure(t, links) && Follows(t, call, next)
    ensures IsClosure(next, links + if Joins(t, call) then [Link(call.previous, call.current)] else [])
  {
    hide Mentioned, Connected;
    if Joins(t, call) {
      JoinedUnites(t, next, call.previous, call.current, call.identify, call.now);
      UniteStep(t, next, links, call.previous, call.current);
    } else {
      assert links + [] == links && next.ids == t.ids;
      forall x, y
        ensures SamePerson(next, x, y) <==> SamePerson(t, x, y)
      {
      }
    }
  }

  lemma NothingIsClosure(t: Tables)
    requires t.ids == map[]
    ensures IsClosure(t, [])
  {
  }

  // From empty tables, two distinct ids belong to one person if and only if the pairs joined so far
  // connect them; refused calls and calls with equal ids leave the partition alone.
  lemma {:induction false} RunIsClosure(ts: seq<Tables>, calls: seq<Call>)
    requires IsRun(ts, calls)
    ensures IsClosure(ts[|calls|], Links(ts, calls))
    decreases |calls|
  {
    if calls == [] {
      NothingIsClosure(ts[0]);
    } else {
      var n := |calls| - 1;
      assert Follows(ts[n], calls[n], ts[n + 1]);
      assert IsRun(ts[..n + 1], calls[..n]) by {
        hide Follows;
        forall i | 0 <= i < n
          ensures Follows(ts[..n + 1][i], calls[..n][i], ts[..n + 1][i + 1])
        {
          assert Follows(ts[i], calls[i], ts[i + 1]);
        }
      }
      RunIsClosure(ts[..n + 1], calls[..n]);
      hide IsClosure, Follows, Joins;
      StepIsClosure(ts[n], calls[n], ts[n + 1], Links(ts[..n + 1], calls[..n]));
    }
  }
}
