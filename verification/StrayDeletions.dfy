/** Why a location that leads astray spoils the whole pruning: when a payload key
    is spelled like a union tag, every location behind that tag is drawn into the
    key, and whatever they delete there, some unexpected field stays. */
module StrayDeletions {
  import opened JsonPaths
  import opened ClosedSchemas

  /** The locations behind steps that should lead nowhere. */
  function Prefixed(u: Loc, locs: seq<Loc>): (r: seq<Loc>)
    ensures |r| == |locs| && forall i :: 0 <= i < |r| ==> r[i] == u + locs[i]
  {
    seq(|locs|, i requires 0 <= i < |locs| => u + locs[i])
  }

  function Tails(locs: seq<Loc>): (r: seq<Loc>)
    requires NonEmpty(locs)
    ensures |r| == |locs| && forall i :: 0 <= i < |r| ==> r[i] == locs[i][1..]
  {
    seq(|locs|, i requires 0 <= i < |locs| => locs[i][1..])
  }

  /** A step taken from the front of every location and put at the end of the prefix. */
  lemma MoveHead(u: Loc, step: Step, locs: seq<Loc>)
    requires NonEmpty(locs) && forall i :: 0 <= i < |locs| ==> locs[i][0] == step
    ensures Prefixed(u, locs) == Prefixed(u + [step], Tails(locs))
  {
    forall i | 0 <= i < |locs| ensures u + locs[i] == (u + [step]) + locs[i][1..] {
      assert locs[i] == [step] + locs[i][1..];
    }
  }

  lemma NoPrefix(locs: seq<Loc>)
    ensures Prefixed([], locs) == locs
  {
    forall i | 0 <= i < |locs| ensures Prefixed([], locs)[i] == locs[i] {
      assert [] + locs[i] == locs[i];
    }
  }

  lemma FirstOfPrefix(u: Loc, locs: seq<Loc>)
    requires u != []
    ensures Prefixed(u, locs) == Prefixed([u[0]], Prefixed(u[1..], locs))
  {
    forall i | 0 <= i < |locs| ensures u + locs[i] == [u[0]] + (u[1..] + locs[i]) {
      assert u == [u[0]] + u[1..];
    }
  }

  lemma PrefixedRest(step: Step, locs: seq<Loc>)
    requires locs != []
    ensures Prefixed([step], locs)[0] == [step] + locs[0]
    ensures Prefixed([step], locs)[1..] == Prefixed([step], locs[1..])
  {
  }

  /** A step that leads nowhere is stepped over by every deletion. */
  lemma {:induction false} SteppedOver(d: Json, step: Step, locs: seq<Loc>)
    requires NonEmpty(locs) && !Leads(d, step)
    ensures DeleteAll(d, Prefixed([step], locs)) == DeleteAll(d, locs)
    ensures LandedBy(d, Prefixed([step], locs)) == LandedBy(d, locs)
    decreases |locs|
  {
    if locs != [] {
      PrefixedRest(step, locs);
      assert ([step] + locs[0])[1..] == locs[0];
      var d1 := DeleteOne(d, locs[0]);
      assert DeleteOne(d, [step] + locs[0]) == d1;
      DeleteOneRemoves(d, locs[0]);
      if Landing(d, locs[0]).Some? {
        LeadsWithout(d, {Landing(d, locs[0]).value}, step);
      }
      SteppedOver(d1, step, locs[1..]);
    }
  }

  /** A step that leads somewhere draws every deletion there. */
  lemma {:induction false} DrawnIn(d: Json, step: Step, locs: seq<Loc>)
    requires NonEmpty(locs) && Leads(d, step)
    ensures DeleteAll(d, Prefixed([step], locs)) == WithChild(d, step, DeleteAll(Child(d, step), locs))
    decreases |locs|
  {
    if locs == [] {
      assert WithChild(d, step, Child(d, step)) == d;
    } else {
      PrefixedRest(step, locs);
      assert ([step] + locs[0])[1..] == locs[0];
      var c1 := DeleteOne(Child(d, step), locs[0]);
      var d1 := WithChild(d, step, c1);
      assert DeleteOne(d, [step] + locs[0]) == d1;
      assert Leads(d1, step) && Child(d1, step) == c1;
      DrawnIn(d1, step, locs[1..]);
    }
  }

  /** What the locations that start with `step` ask for below it. */
  function TailsOf(locs: seq<Loc>, step: Step): (r: seq<Loc>)
    requires forall i :: 0 <= i < |locs| ==> locs[i] != [] && (locs[i][0] == step ==> |locs[i]| > 1)
    ensures NonEmpty(r)
    ensures forall t :: t in r ==> [step] + t in locs
  {
    if locs == [] then []
    else
      var rest := TailsOf(locs[1..], step);
      if locs[0][0] == step then
        assert locs[0] == [step] + locs[0][1..];
        [locs[0][1..]] + rest
      else rest
  }

  /** Locations of which each either ends in a key or leads on through one that
      none of them ends in. */
  predicate Orderly(d: Json, locs: seq<Loc>) {
    && NonEmpty(locs)
    && (forall i :: 0 <= i < |locs| && |locs[i]| > 1 ==> Leads(d, locs[i][0]))
    && (forall i, j :: 0 <= i < |locs| && 0 <= j < |locs| && |locs[i]| > 1 && |locs[j]| == 1 ==>
          locs[i][0] != locs[j][0])
  }

  /** Deletions below one child are not disturbed by the others. */
  lemma {:induction false} ChildAfter(d: Json, locs: seq<Loc>, step: Step)
    requires Orderly(d, locs) && Leads(d, step)
    requires forall i :: 0 <= i < |locs| && locs[i][0] == step ==> |locs[i]| > 1
    ensures var d' := DeleteAll(d, locs);
      Leads(d', step) && Child(d', step) == DeleteAll(Child(d, step), TailsOf(locs, step))
    decreases |locs|
  {
    if locs != [] {
      var head := locs[0][0];
      var d1 := DeleteOne(d, locs[0]);
      assert locs[0] == [head] + locs[0][1..];
      assert Leads(d1, step);
      assert Child(d1, step) == if head == step then DeleteOne(Child(d, step), locs[0][1..]) else Child(d, step);
      forall i | 1 <= i < |locs| && |locs[i]| > 1 ensures Leads(d1, locs[i][0]) {
        assert Leads(d, locs[i][0]);
      }
      ChildAfter(d1, locs[1..], step);
    }
  }

  // ----------------------------------------------------------------- the argument

  /** The prefix is made of tags and the locations are reported extras. */
  ghost predicate Behind(s: Schema, d: Json, u: Loc, locs: seq<Loc>) {
    && Flat(s) && WellFormed(s)
    && (forall i :: 0 <= i < |u| ==> u[i].Key?)
    && NonEmpty(locs)
    && forall l :: l in locs ==> Reported(s, d, Extra, l)
  }

  ghost predicate Astray(s: Schema, d: Json, u: Loc, l: Loc) {
    && l != [] && Reported(s, d, Extra, l)
    && Landing(d, u + l) != Some(Place(s, d, l))
  }

  predicate Node(s: Schema) {
    s.Model? || s.Dict? || s.Items?
  }

  /** The schema of a child that is known. */
  predicate Knows(s: Schema, step: Step) {
    match s
    case Model(fields) => step.Key? && step.name in fields
    case Dict(_) => step.Key?
    case Items(_) => step.Index?
    case _ => false
  }

  function Inner(s: Schema, step: Step): (inner: Schema)
    requires Knows(s, step)
    ensures inner < s
  {
    match s
    case Model(fields) => fields[step.name].schema
    case Dict(elem) => elem
    case Items(elem) => elem
  }

  lemma ExtraSplits(s: Schema, d: Json, l: Loc)
    requires Flat(s) && WellFormed(s) && Node(s) && Reported(s, d, Extra, l)
    ensures l != [] && Leads(d, l[0])
    ensures Knows(s, l[0]) ==>
              && Reported(Inner(s, l[0]), Child(d, l[0]), Extra, l[1..]) && l[1..] != []
              && Place(s, d, l) == [l[0]] + Place(Inner(s, l[0]), Child(d, l[0]), l[1..])
    ensures !Knows(s, l[0]) ==> l == [l[0]] && Place(s, d, l) == l
  {
    ExtraHasPlace(s, d, l);
    if Knows(s, l[0]) {
      ExtraHasPlace(Inner(s, l[0]), Child(d, l[0]), l[1..]);
    } else {
      assert l == [l[0]];
    }
  }

  lemma FlatInner(s: Schema, step: Step)
    requires Flat(s) && WellFormed(s) && Knows(s, step)
    ensures Flat(Inner(s, step)) && WellFormed(Inner(s, step))
  {
  }

  /** A payload with an invalid or unknown child is invalid. */
  lemma BadChild(s: Schema, d: Json, step: Step)
    requires Node(s) && Leads(d, step)
    requires Knows(s, step) ==> !Valid(Inner(s, step), Child(d, step))
    ensures !Valid(s, d)
  {
  }

  lemma StillReported(s: Schema, d: Json, step: Step, tail: Loc)
    requires Knows(s, step) && Leads(d, step)
    requires Reported(Inner(s, step), Child(d, step), Extra, tail)
    ensures !Valid(Inner(s, step), Child(d, step))
  {
    if Valid(Inner(s, step), Child(d, step)) {
      ValidIsQuiet(Inner(s, step), Child(d, step), Extra, tail);
    }
  }

  /** Everything is drawn into one child, and an unexpected field is elsewhere. */
  lemma ElsewhereStays(s: Schema, d: Json, step: Step, c: Json, x: Loc)
    requires Flat(s) && WellFormed(s) && Node(s) && Leads(d, step) && Reported(s, d, Extra, x)
    requires x != [] && (x[0] != step || !Knows(s, step))
    ensures !Valid(s, WithChild(d, step, c))
  {
    ExtraSplits(s, d, x);
    var d' := WithChild(d, step, c);
    if x[0] == step {
      BadChild(s, d', step);
    } else {
      assert Leads(d', x[0]) && Child(d', x[0]) == Child(d, x[0]);
      if Knows(s, x[0]) {
        StillReported(s, d', x[0], x[1..]);
      }
      BadChild(s, d', x[0]);
    }
  }

  /** If one unexpected field is looked for in the wrong place, deleting any of
      the unexpected fields that way leaves an invalid payload. */
  lemma {:induction false} Spoiled(s: Schema, d: Json, u: Loc, locs: seq<Loc>, l: Loc)
    requires Behind(s, d, u, locs) && Astray(s, d, u, l)
    ensures !Valid(s, DeleteAll(d, Prefixed(u, locs)))
    decreases s, |u|
  {
    ExtraHasPlace(s, d, l);
    if s.Nullable? {
      Spoiled(s.inner, d, u, locs, l);
      DeleteAllRemoves(d, Prefixed(u, locs));
    } else if s.Tagged? {
      SpoiledTagged(s, d, u, locs, l);
    } else if u == [] {
      SpoiledBelow(s, d, locs, l);
    } else if !Leads(d, u[0]) {
      FirstOfPrefix(u, locs);
      SteppedOver(d, u[0], Prefixed(u[1..], locs));
      assert (u + l)[0] == u[0] && (u + l)[1..] == u[1..] + l;
      Spoiled(s, d, u[1..], locs, l);
    } else {
      SpoiledInside(s, d, u, locs, l);
    }
  }

  lemma SpoiledTagged(s: Schema, d: Json, u: Loc, locs: seq<Loc>, l: Loc)
    requires Behind(s, d, u, locs) && Astray(s, d, u, l) && s.Tagged?
    ensures !Valid(s, DeleteAll(d, Prefixed(u, locs)))
    decreases s, |u|, 0
  {
    var tag, member := Key(Tag(s, d)), s.members[Tag(s, d)];
    forall x | x in locs + [l] ensures x[0] == tag && Reported(member, d, Extra, x[1..]) && x[1..] != [] {
      assert Reported(s, d, Extra, x);
      ExtraHasPlace(member, d, x[1..]);
    }
    MoveHead(u, tag, locs);
    assert l in locs + [l];
    assert u + l == (u + [tag]) + l[1..];
    forall t | t in Tails(locs) ensures Reported(member, d, Extra, t) && t != [] {
      var i :| 0 <= i < |locs| && Tails(locs)[i] == t;
      assert locs[i] in locs + [l];
    }
    Spoiled(member, d, u + [tag], Tails(locs), l[1..]);
    DeleteAllRemoves(d, Prefixed(u, locs));
  }

  lemma SpoiledBelow(s: Schema, d: Json, locs: seq<Loc>, l: Loc)
    requires Behind(s, d, [], locs) && Astray(s, d, [], l) && !s.Nullable? && !s.Tagged?
    ensures !Valid(s, DeleteAll(d, Prefixed([], locs)))
    decreases s, 0, 0
  {
    NoPrefix(locs);
    assert [] + l == l;
    var head := l[0];
    ExtraSplits(s, d, l);
    forall x | x in locs
      ensures Leads(d, x[0]) && (|x| > 1 <==> Knows(s, x[0]))
      ensures |x| > 1 ==> Reported(Inner(s, x[0]), Child(d, x[0]), Extra, x[1..])
    {
      ExtraSplits(s, d, x);
    }
    var inner, child := Inner(s, head), Child(d, head);
    forall t | t in TailsOf(locs, head) ensures Reported(inner, child, Extra, t) {
      assert ([head] + t)[0] == head && ([head] + t)[1..] == t;
    }
    FlatInner(s, head);
    assert [] + l[1..] == l[1..];
    Spoiled(inner, child, [], TailsOf(locs, head), l[1..]);
    NoPrefix(TailsOf(locs, head));
    ChildAfter(d, locs, head);
    BadChild(s, DeleteAll(d, locs), head);
  }

  lemma SpoiledInside(s: Schema, d: Json, u: Loc, locs: seq<Loc>, l: Loc)
    requires Behind(s, d, u, locs) && Astray(s, d, u, l) && !s.Nullable? && !s.Tagged?
    requires u != [] && Leads(d, u[0])
    ensures !Valid(s, DeleteAll(d, Prefixed(u, locs)))
    decreases s, |u|, 0
  {
    var step := u[0];
    FirstOfPrefix(u, locs);
    DrawnIn(d, step, Prefixed(u[1..], locs));
    var c := DeleteAll(Child(d, step), Prefixed(u[1..], locs));
    if !Knows(s, step) {
      ExtraSplits(s, d, l);
      BadChild(s, WithChild(d, step, c), step);
    } else if x :| x in locs + [l] && x[0] != step {
      ElsewhereStays(s, d, step, c, x);
    } else {
      assert l in locs + [l] && forall i :: 0 <= i < |locs| ==> locs[i] in locs + [l];
      SpoiledDeeper(s, d, u, locs, l);
      BadChild(s, WithChild(d, step, c), step);
    }
  }

  lemma SpoiledDeeper(s: Schema, d: Json, u: Loc, locs: seq<Loc>, l: Loc)
    requires Behind(s, d, u, locs) && Astray(s, d, u, l) && Node(s)
    requires u != [] && Leads(d, u[0]) && Knows(s, u[0])
    requires l[0] == u[0] && forall i :: 0 <= i < |locs| ==> locs[i][0] == u[0]
    ensures !Valid(Inner(s, u[0]), DeleteAll(Child(d, u[0]), Prefixed(u[1..], locs)))
    decreases s, 0, 0
  {
    var step := u[0];
    var inner, child := Inner(s, step), Child(d, step);
    ExtraSplits(s, d, l);
    forall t | t in Tails(locs) ensures Reported(inner, child, Extra, t) && t != [] {
      var i :| 0 <= i < |locs| && Tails(locs)[i] == t;
      assert locs[i] in locs;
      ExtraSplits(s, d, locs[i]);
    }
    assert forall i :: 0 <= i < |locs| ==> Tails(locs)[i] in Tails(locs);
    assert forall i :: 0 <= i < |u[1..] + [step]| ==> (u[1..] + [step])[i].Key?;
    MoveHead(u[1..], step, locs);
    FlatInner(s, step);
    AstrayInside(s, d, u, l);
    Spoiled(inner, child, u[1..] + [step], Tails(locs), l[1..]);
  }

  lemma AstrayInside(s: Schema, d: Json, u: Loc, l: Loc)
    requires Flat(s) && WellFormed(s) && Node(s) && Astray(s, d, u, l)
    requires u != [] && Leads(d, u[0]) && Knows(s, u[0]) && l[0] == u[0]
    ensures Astray(Inner(s, u[0]), Child(d, u[0]), u[1..] + [u[0]], l[1..])
  {
    ExtraSplits(s, d, l);
    assert (u + l)[0] == u[0] && (u + l)[1..] == u[1..] + l;
    assert u[1..] + l == (u[1..] + [u[0]]) + l[1..];
  }
}
