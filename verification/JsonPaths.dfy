/** Payloads, locations in them, and deletion by location as
    shared/redis/client.py does it: `_delete_at` follows the steps it can follow,
    steps over the others, and removes the key it ends in. */
module JsonPaths {

  datatype Option<T> = None | Some(value: T)

  datatype Json =
    | Null
    | Bool(b: bool)
    | Num(n: int)
    | Str(s: string)
    | Arr(items: seq<Json>)
    | Obj(fields: map<string, Json>)

  /** One step of a location. Union tags are strings like field names: nothing
      in a location itself tells them apart. */
  datatype Step = Key(name: string) | Index(i: nat)

  type Loc = seq<Step>

  // ---------------------------------------------------------- deleting by location

  /** The step leads from `d` to one of its children. */
  predicate Leads(d: Json, step: Step) {
    || (d.Obj? && step.Key? && step.name in d.fields)
    || (d.Arr? && step.Index? && step.i < |d.items|)
  }

  function Child(d: Json, step: Step): (c: Json)
    requires Leads(d, step)
    ensures c < d
  {
    if d.Obj? then d.fields[step.name] else d.items[step.i]
  }

  function WithChild(d: Json, step: Step, c: Json): Json
    requires Leads(d, step)
  {
    if d.Obj? then Obj(d.fields[step.name := c]) else Arr(d.items[step.i := c])
  }

  predicate EndsIn(d: Json, step: Step) {
    d.Obj? && step.Key? && step.name in d.fields
  }

  /** Follow `loc` and remove the key it ends in. */
  function DeleteOne(d: Json, loc: Loc): Json
    requires loc != []
    decreases |loc|
  {
    if |loc| == 1 then if EndsIn(d, loc[0]) then Obj(d.fields - {loc[0].name}) else d
    else if Leads(d, loc[0]) then WithChild(d, loc[0], DeleteOne(Child(d, loc[0]), loc[1..]))
    else DeleteOne(d, loc[1..])
  }

  /** The place in the payload that `loc` leads to when it is followed so. */
  function Landing(d: Json, loc: Loc): (place: Option<Loc>)
    requires loc != []
    ensures place.Some? ==> place.value != []
    decreases |loc|
  {
    if |loc| == 1 then if EndsIn(d, loc[0]) then Some([loc[0]]) else None
    else if Leads(d, loc[0]) then
      match Landing(Child(d, loc[0]), loc[1..])
      case Some(p) => Some([loc[0]] + p)
      case None => None
    else Landing(d, loc[1..])
  }

  predicate Hits(d: Json, loc: Loc)
    requires loc != []
  {
    Landing(d, loc).Some?
  }

  predicate NonEmpty(locs: seq<Loc>) {
    forall i :: 0 <= i < |locs| ==> locs[i] != []
  }

  function DeleteAll(d: Json, locs: seq<Loc>): Json
    requires NonEmpty(locs)
    decreases |locs|
  {
    if locs == [] then d
    else DeleteAll(DeleteOne(d, locs[0]), locs[1..])
  }

  /** The locations at which a key was really removed, in order. */
  function DroppedBy(d: Json, locs: seq<Loc>): seq<Loc>
    requires NonEmpty(locs)
    decreases |locs|
  {
    if locs == [] then []
    else if Hits(d, locs[0]) then [locs[0]] + DroppedBy(DeleteOne(d, locs[0]), locs[1..])
    else DroppedBy(DeleteOne(d, locs[0]), locs[1..])
  }

  /** The places that were removed, each found in what the earlier removals left. */
  function LandedBy(d: Json, locs: seq<Loc>): set<Loc>
    requires NonEmpty(locs)
    decreases |locs|
  {
    if locs == [] then {}
    else
      var rest := LandedBy(DeleteOne(d, locs[0]), locs[1..]);
      match Landing(d, locs[0])
      case Some(p) => {p} + rest
      case None => rest
  }

  // ------------------------------------------------------- a payload minus places

  /** What the places ask for below one step. */
  function Below(gone: set<Loc>, step: Step): set<Loc> {
    set g | g in gone && |g| > 1 && g[0] == step :: g[1..]
  }

  lemma BelowMember(gone: set<Loc>, step: Step, p: Loc)
    requires p != []
    ensures p in Below(gone, step) <==> [step] + p in gone
  {
    var q := [step] + p;
    assert q[0] == step && q[1..] == p && |q| > 1;
    if p in Below(gone, step) {
      var g :| g in gone && |g| > 1 && g[0] == step && g[1..] == p;
      assert g == q;
    }
  }

  lemma BelowEmpty(step: Step)
    ensures Below({}, step) == {}
  {
  }

  /** The payload without exactly the keys at these places. */
  function Without(d: Json, gone: set<Loc>): Json {
    match d
    case Obj(fields) =>
      Obj(map k | k in fields && [Key(k)] !in gone :: Without(fields[k], Below(gone, Key(k))))
    case Arr(items) =>
      Arr(seq(|items|, i requires 0 <= i < |items| => Without(items[i], Below(gone, Index(i)))))
    case _ => d
  }

  /** There is a key at this place. */
  predicate Present(d: Json, place: Loc)
    decreases |place|
  {
    && place != []
    && if |place| == 1 then EndsIn(d, place[0])
       else Leads(d, place[0]) && Present(Child(d, place[0]), place[1..])
  }

  lemma {:induction false} WithoutNothing(d: Json)
    ensures Without(d, {}) == d
  {
    match d {
      case Obj(fields) =>
        forall k | k in fields ensures Without(fields[k], Below({}, Key(k))) == fields[k] {
          BelowEmpty(Key(k));
          WithoutNothing(fields[k]);
        }
        assert Without(d, {}).fields == fields;
      case Arr(items) =>
        forall i | 0 <= i < |items| ensures Without(items[i], Below({}, Index(i))) == items[i] {
          BelowEmpty(Index(i));
          WithoutNothing(items[i]);
        }
        assert Without(d, {}).items == items;
      case _ =>
    }
  }

  lemma BelowUnion(a: set<Loc>, b: set<Loc>, step: Step)
    ensures Below(a + b, step) == Below(a, step) + Below(b, step)
  {
  }

  lemma {:induction false} WithoutTwice(d: Json, a: set<Loc>, b: set<Loc>)
    ensures Without(Without(d, a), b) == Without(d, a + b)
  {
    match d {
      case Obj(fields) =>
        forall k | k in fields
          ensures Without(Without(fields[k], Below(a, Key(k))), Below(b, Key(k)))
                  == Without(fields[k], Below(a + b, Key(k)))
        {
          BelowUnion(a, b, Key(k));
          WithoutTwice(fields[k], Below(a, Key(k)), Below(b, Key(k)));
        }
        assert Without(Without(d, a), b).fields == Without(d, a + b).fields;
      case Arr(items) =>
        forall i | 0 <= i < |items|
          ensures Without(Without(items[i], Below(a, Index(i))), Below(b, Index(i)))
                  == Without(items[i], Below(a + b, Index(i)))
        {
          BelowUnion(a, b, Index(i));
          WithoutTwice(items[i], Below(a, Index(i)), Below(b, Index(i)));
        }
        assert Without(Without(d, a), b).items == Without(d, a + b).items;
      case _ =>
    }
  }

  // ------------------------------------------------ what is left, place by place

  /** Some place of `gone` lies at or above `p`. */
  ghost predicate CoveredBy(p: Loc, gone: set<Loc>) {
    exists g :: g in gone && g != [] && g <= p
  }

  /** A place at or above `p` is `p`'s first step or lies below it. */
  lemma CoverStep(p: Loc, gone: set<Loc>)
    requires p != []
    ensures CoveredBy(p, gone) <==> [p[0]] in gone || CoveredBy(p[1..], Below(gone, p[0]))
  {
    if CoveredBy(p, gone) {
      var g :| g in gone && g != [] && g <= p;
      if |g| == 1 {
        assert g == [p[0]];
      } else {
        assert g == [p[0]] + g[1..];
        BelowMember(gone, p[0], g[1..]);
        assert g[1..] <= p[1..];
      }
    }
    if [p[0]] in gone {
      assert [p[0]] <= p;
    }
    if CoveredBy(p[1..], Below(gone, p[0])) {
      var h :| h in Below(gone, p[0]) && h != [] && h <= p[1..];
      BelowMember(gone, p[0], h);
      assert [p[0]] + h <= p;
    }
  }

  lemma LeadsWithout(d: Json, gone: set<Loc>, step: Step)
    ensures Leads(Without(d, gone), step) <==> Leads(d, step) && !(d.Obj? && [step] in gone)
    ensures Leads(Without(d, gone), step) ==>
              Child(Without(d, gone), step) == Without(Child(d, step), Below(gone, step))
  {
    assert step.Key? ==> step == Key(step.name);
    assert step.Index? ==> step == Index(step.i);
  }

  ghost predicate AllPresent(d: Json, gone: set<Loc>) {
    forall g :: g in gone ==> Present(d, g)
  }

  lemma BelowPresent(d: Json, gone: set<Loc>, step: Step)
    requires AllPresent(d, gone) && Leads(d, step)
    ensures AllPresent(Child(d, step), Below(gone, step))
    ensures d.Arr? ==> [step] !in gone
  {
    forall g | g in Below(gone, step) ensures Present(Child(d, step), g) {
      var h :| h in gone && |h| > 1 && h[0] == step && h[1..] == g;
      assert Present(d, h);
    }
    if [step] in gone {
      assert Present(d, [step]);
    }
  }

  /** A place is left exactly if it was there and nothing at or above it is gone. */
  lemma {:induction false} PresentWithout(d: Json, gone: set<Loc>, p: Loc)
    requires AllPresent(d, gone)
    ensures Present(Without(d, gone), p) <==> Present(d, p) && !CoveredBy(p, gone)
    decreases |p|
  {
    if p != [] {
      CoverStep(p, gone);
      LeadsWithout(d, gone, p[0]);
      assert p == [p[0]] + p[1..];
      if |p| == 1 {
        assert !CoveredBy(p[1..], Below(gone, p[0])) by {
          assert p[1..] == [];
        }
      } else if Leads(d, p[0]) {
        BelowPresent(d, gone, p[0]);
        PresentWithout(Child(d, p[0]), Below(gone, p[0]), p[1..]);
      }
    }
  }

  /** Every place of `inner` lies at or below one of `outer`. */
  ghost predicate Covers(outer: set<Loc>, inner: set<Loc>) {
    forall p :: p in inner ==> CoveredBy(p, outer)
  }

  lemma {:induction false} CoveredAddsNothing(d: Json, outer: set<Loc>, inner: set<Loc>)
    requires AllPresent(d, outer) && Covers(outer, inner)
    ensures Without(d, outer + inner) == Without(d, outer)
  {
    match d {
      case Obj(fields) =>
        forall k | k in fields
          ensures [Key(k)] in outer + inner <==> [Key(k)] in outer
          ensures [Key(k)] !in outer ==>
            Without(fields[k], Below(outer + inner, Key(k))) == Without(fields[k], Below(outer, Key(k)))
        {
          if [Key(k)] in inner {
            OnlyStepCovers(outer, inner, Key(k));
          }
          if [Key(k)] !in outer {
            BelowPresent(d, outer, Key(k));
            BelowCovers(outer, inner, Key(k));
            BelowUnion(outer, inner, Key(k));
            CoveredAddsNothing(fields[k], Below(outer, Key(k)), Below(inner, Key(k)));
          }
        }
        assert Without(d, outer + inner).fields == Without(d, outer).fields;
      case Arr(items) =>
        forall i | 0 <= i < |items|
          ensures Without(items[i], Below(outer + inner, Index(i))) == Without(items[i], Below(outer, Index(i)))
        {
          BelowPresent(d, outer, Index(i));
          BelowCovers(outer, inner, Index(i));
          BelowUnion(outer, inner, Index(i));
          CoveredAddsNothing(items[i], Below(outer, Index(i)), Below(inner, Index(i)));
        }
        assert Without(d, outer + inner).items == Without(d, outer).items;
      case _ =>
    }
  }

  lemma OnlyStepCovers(outer: set<Loc>, inner: set<Loc>, step: Step)
    requires Covers(outer, inner) && [step] in inner
    ensures [step] in outer
  {
    assert CoveredBy([step], outer);
    var g :| g in outer && g != [] && g <= [step];
    assert g == [step];
  }

  lemma BelowCovers(outer: set<Loc>, inner: set<Loc>, step: Step)
    requires Covers(outer, inner) && [step] !in outer
    ensures Covers(Below(outer, step), Below(inner, step))
  {
    forall p | p in Below(inner, step) ensures CoveredBy(p, Below(outer, step)) {
      var q :| q in inner && |q| > 1 && q[0] == step && q[1..] == p;
      assert CoveredBy(q, outer);
      CoverStep(q, outer);
    }
  }

  /** Two sets of places leave the same payload exactly if each place of either
      lies at or below a place of the other. */
  lemma SamePayload(d: Json, a: set<Loc>, b: set<Loc>)
    requires AllPresent(d, a) && AllPresent(d, b)
    ensures Without(d, a) == Without(d, b) <==> Covers(a, b) && Covers(b, a)
  {
    if Covers(a, b) && Covers(b, a) {
      CoveredAddsNothing(d, a, b);
      CoveredAddsNothing(d, b, a);
      assert a + b == b + a;
    }
    if Without(d, a) == Without(d, b) {
      forall p | p in b ensures CoveredBy(p, a) {
        SelfCovered(d, p, b);
        PresentWithout(d, a, p);
        PresentWithout(d, b, p);
      }
      forall p | p in a ensures CoveredBy(p, b) {
        SelfCovered(d, p, a);
        PresentWithout(d, a, p);
        PresentWithout(d, b, p);
      }
    }
  }

  lemma SelfCovered(d: Json, p: Loc, gone: set<Loc>)
    requires p in gone && Present(d, p)
    ensures CoveredBy(p, gone)
  {
    assert p <= p;
  }

  // --------------------------------------------------- deletion as places removed

  lemma {:induction false} LandingIsPresent(d: Json, loc: Loc)
    requires loc != [] && Landing(d, loc).Some?
    ensures Present(d, Landing(d, loc).value)
    decreases |loc|
  {
    if |loc| > 1 {
      if Leads(d, loc[0]) {
        LandingIsPresent(Child(d, loc[0]), loc[1..]);
        var p := Landing(Child(d, loc[0]), loc[1..]).value;
        assert ([loc[0]] + p)[0] == loc[0] && ([loc[0]] + p)[1..] == p;
      } else {
        LandingIsPresent(d, loc[1..]);
      }
    }
  }

  /** Deletion by location removes the place the location lands on. */
  lemma {:induction false} DeleteOneRemoves(d: Json, loc: Loc)
    requires loc != []
    ensures DeleteOne(d, loc) == match Landing(d, loc) case Some(p) => Without(d, {p}) case None => d
    decreases |loc|
  {
    if |loc| == 1 {
      if EndsIn(d, loc[0]) {
        RemoveKey(d, loc[0].name);
      }
    } else if Leads(d, loc[0]) {
      DeleteOneRemoves(Child(d, loc[0]), loc[1..]);
      match Landing(Child(d, loc[0]), loc[1..])
      case Some(p) => RemoveBelow(d, loc[0], p);
      case None =>
        assert WithChild(d, loc[0], Child(d, loc[0])) == d;
    } else {
      DeleteOneRemoves(d, loc[1..]);
    }
  }

  lemma RemoveKey(d: Json, k: string)
    requires d.Obj? && k in d.fields
    ensures Without(d, {[Key(k)]}) == Obj(d.fields - {k})
  {
    forall j | j in d.fields && j != k
      ensures Without(d.fields[j], Below({[Key(k)]}, Key(j))) == d.fields[j]
    {
      assert Below({[Key(k)]}, Key(j)) == {};
      WithoutNothing(d.fields[j]);
    }
    assert Without(d, {[Key(k)]}).fields == d.fields - {k};
  }

  lemma BelowOne(step: Step, p: Loc, other: Step)
    requires p != []
    ensures Below({[step] + p}, other) == if other == step then {p} else {}
  {
    var q := [step] + p;
    assert q[0] == step && q[1..] == p && q in {q};
  }

  lemma RemoveBelow(d: Json, step: Step, p: Loc)
    requires Leads(d, step) && p != []
    ensures Without(d, {[step] + p}) == WithChild(d, step, Without(Child(d, step), {p}))
  {
    if d.Obj? {
      RemoveBelowKey(d, step.name, p);
    } else {
      RemoveBelowIndex(d, step.i, p);
    }
  }

  lemma RemoveBelowKey(d: Json, key: string, p: Loc)
    requires d.Obj? && key in d.fields && p != []
    ensures Without(d, {[Key(key)] + p}) == Obj(d.fields[key := Without(d.fields[key], {p})])
  {
    forall k | k in d.fields
      ensures Without(d.fields[k], Below({[Key(key)] + p}, Key(k)))
              == if k == key then Without(d.fields[key], {p}) else d.fields[k]
    {
      BelowOne(Key(key), p, Key(k));
      WithoutNothing(d.fields[k]);
    }
    assert Without(d, {[Key(key)] + p}).fields == d.fields[key := Without(d.fields[key], {p})];
  }

  lemma RemoveBelowIndex(d: Json, index: nat, p: Loc)
    requires d.Arr? && index < |d.items| && p != []
    ensures Without(d, {[Index(index)] + p}) == Arr(d.items[index := Without(d.items[index], {p})])
  {
    forall i | 0 <= i < |d.items|
      ensures Without(d.items[i], Below({[Index(index)] + p}, Index(i)))
              == if i == index then Without(d.items[index], {p}) else d.items[i]
    {
      BelowOne(Index(index), p, Index(i));
      WithoutNothing(d.items[i]);
    }
    assert Without(d, {[Index(index)] + p}).items == d.items[index := Without(d.items[index], {p})];
  }

  /** Deleting in turn removes exactly the places landed on, all of which were
      in the payload to begin with. */
  lemma {:induction false} DeleteAllRemoves(d: Json, locs: seq<Loc>)
    requires NonEmpty(locs)
    ensures DeleteAll(d, locs) == Without(d, LandedBy(d, locs))
    ensures AllPresent(d, LandedBy(d, locs))
    decreases |locs|
  {
    WithoutNothing(d);
    if locs != [] {
      var d1 := DeleteOne(d, locs[0]);
      DeleteOneRemoves(d, locs[0]);
      DeleteAllRemoves(d1, locs[1..]);
      var rest := LandedBy(d1, locs[1..]);
      match Landing(d, locs[0]) {
        case Some(p) =>
          LandingIsPresent(d, locs[0]);
          WithoutTwice(d, {p}, rest);
          forall g | g in rest ensures Present(d, g) {
            PresentWithout(d, {p}, g);
          }
        case None =>
      }
    }
  }

  /** Nothing dropped, nothing changed. */
  lemma {:induction false} NothingDropped(d: Json, locs: seq<Loc>)
    requires NonEmpty(locs) && DroppedBy(d, locs) == []
    ensures DeleteAll(d, locs) == d
    decreases |locs|
  {
    if locs != [] {
      DeleteOneRemoves(d, locs[0]);
      NothingDropped(d, locs[1..]);
    }
  }

  // ----------------------------------------- locations that land where they should

  /** What earlier removals do to a landing: they leave it alone unless they
      took its place, or something above it, away. */
  lemma {:induction false} LandingStays(d: Json, gone: set<Loc>, loc: Loc, p: Loc)
    requires loc != [] && AllPresent(d, gone) && Landing(d, loc) == Some(p)
    ensures !CoveredBy(p, gone) ==> Landing(Without(d, gone), loc) == Some(p)
    ensures CoveredBy(p, gone) && !CoveredBy(p[..|p| - 1], gone) ==> Landing(Without(d, gone), loc) == None
    decreases |loc|
  {
    LandingIsPresent(d, loc);
    LeadsWithout(d, gone, loc[0]);
    if |loc| == 1 {
      CoverStep(p, gone);
      assert p[1..] == [] && p[..0] == [];
    } else if Leads(d, loc[0]) {
      var step := loc[0];
      var q := Landing(Child(d, step), loc[1..]).value;
      assert p == [step] + q && p[1..] == q;
      BelowPresent(d, gone, step);
      LandingIsPresent(Child(d, step), loc[1..]);
      CoverStep(p, gone);
      assert p[..|p| - 1] == [step] + q[..|q| - 1];
      CoverStep(p[..|p| - 1], gone);
      assert p[..|p| - 1][1..] == q[..|q| - 1];
      if [step] !in gone {
        LandingStays(Child(d, step), Below(gone, step), loc[1..], q);
      }
    } else {
      LandingStays(d, gone, loc[1..], p);
    }
  }

  predicate Distinct<T(==)>(xs: seq<T>) {
    forall i, j :: 0 <= i < j < |xs| ==> xs[i] != xs[j]
  }

  function SetOf<T>(xs: seq<T>): set<T> {
    set x | x in xs
  }

  /** Each location lands on its place, and no place lies inside another. */
  ghost predicate LandOn(d: Json, locs: seq<Loc>, places: seq<Loc>) {
    && NonEmpty(locs) && |places| == |locs|
    && (forall i :: 0 <= i < |locs| ==> Landing(d, locs[i]) == Some(places[i]))
    && (forall i, j :: 0 <= i < |places| && 0 <= j < |places| && places[i] <= places[j] ==> places[i] == places[j])
  }

  /** Then deleting them in turn removes those places and no others, and names
      each place once, under the first location that leads to it. */
  lemma LandOnRemoves(d: Json, locs: seq<Loc>, places: seq<Loc>)
    requires LandOn(d, locs, places)
    ensures LandedBy(d, locs) == SetOf(places)
    ensures DeleteAll(d, locs) == Without(d, SetOf(places))
    ensures Distinct(places) ==> DroppedBy(d, locs) == locs
  {
    WithoutNothing(d);
    LandInTurn(d, {}, locs, places);
    DeleteAllRemoves(d, locs);
    if Distinct(places) {
      LandAndDrop(d, {}, locs, places);
    }
  }

  /** One deletion after others: it does nothing if its place is gone already. */
  lemma LandNext(d: Json, gone: set<Loc>, loc: Loc, p: Loc)
    requires AllPresent(d, gone) && loc != [] && Landing(d, loc) == Some(p)
    requires forall g :: g in gone && g <= p ==> g == p
    ensures Landing(Without(d, gone), loc) == if p in gone then None else Some(p)
    ensures DeleteOne(Without(d, gone), loc) == Without(d, gone + {p})
    ensures AllPresent(d, gone + {p})
  {
    LandingStays(d, gone, loc, p);
    LandingIsPresent(d, loc);
    DeleteOneRemoves(Without(d, gone), loc);
    if p in gone {
      SelfCovered(d, p, gone);
      assert !CoveredBy(p[..|p| - 1], gone);
      assert gone + {p} == gone;
    } else {
      assert !CoveredBy(p, gone);
      WithoutTwice(d, gone, {p});
    }
  }

  /** The places already gone are none that lie inside another place. */
  ghost predicate Apart(gone: set<Loc>, places: seq<Loc>) {
    forall g, i :: g in gone && 0 <= i < |places| && g <= places[i] ==> g == places[i]
  }

  lemma ApartNext(gone: set<Loc>, places: seq<Loc>)
    requires places != [] && Apart(gone, places)
    requires forall i, j :: 0 <= i < |places| && 0 <= j < |places| && places[i] <= places[j] ==> places[i] == places[j]
    ensures Apart(gone + {places[0]}, places[1..])
    ensures SetOf(places) == {places[0]} + SetOf(places[1..])
  {
    assert places == [places[0]] + places[1..];
  }

  lemma {:induction false} LandInTurn(d: Json, gone: set<Loc>, locs: seq<Loc>, places: seq<Loc>)
    requires AllPresent(d, gone) && LandOn(d, locs, places) && Apart(gone, places)
    ensures LandedBy(Without(d, gone), locs) + gone == SetOf(places) + gone
    decreases |locs|
  {
    if locs != [] {
      var p, more := places[0], gone + {places[0]};
      assert LandOn(d, locs[1..], places[1..]);
      LandNext(d, gone, locs[0], p);
      ApartNext(gone, places);
      LandInTurn(d, more, locs[1..], places[1..]);
      var rest := LandedBy(Without(d, more), locs[1..]);
      assert LandedBy(Without(d, gone), locs) == (if p in gone then {} else {p}) + rest;
      OneLanded(rest, gone, p, SetOf(places[1..]));
    }
  }

  lemma OneLanded(rest: set<Loc>, gone: set<Loc>, p: Loc, places: set<Loc>)
    requires rest + (gone + {p}) == places + (gone + {p})
    ensures ((if p in gone then {} else {p}) + rest) + gone == ({p} + places) + gone
  {
    forall q ensures q in ((if p in gone then {} else {p}) + rest) + gone <==> q in ({p} + places) + gone {
      assert q in rest + (gone + {p}) <==> q in places + (gone + {p});
    }
  }

  lemma {:induction false} LandAndDrop(d: Json, gone: set<Loc>, locs: seq<Loc>, places: seq<Loc>)
    requires AllPresent(d, gone) && LandOn(d, locs, places) && Apart(gone, places)
    requires Distinct(places) && forall p :: p in places ==> p !in gone
    ensures DroppedBy(Without(d, gone), locs) == locs
    decreases |locs|
  {
    if locs != [] {
      assert LandOn(d, locs[1..], places[1..]);
      LandNext(d, gone, locs[0], places[0]);
      ApartNext(gone, places);
      assert places[0] !in places[1..];
      LandAndDrop(d, gone + {places[0]}, locs[1..], places[1..]);
      assert locs == [locs[0]] + locs[1..];
    }
  }
}
