/** Validation that forgives only fields the schema does not know yet
    (shared/redis/client.py): what the tolerant reader accepts, what it deletes,
    and when that is exactly what was unexpected. */
module TolerantValidation {
  import opened JsonPaths
  import opened ClosedSchemas
  import opened StrayDeletions
  import opened TolerantReader
  import Multisets

  // ------------------------------------- what is deleted, for every schema and payload

  /** Where the schema says these unexpected fields are. */
  ghost function PlacesOf(s: Schema, d: Json, locs: seq<Loc>): set<Loc> {
    set l | l in locs :: Place(s, d, l)
  }

  /** Followed in turn, the locations lead to their true places: what they
      remove lies at or below a true place, and no true place is missed. */
  ghost predicate TrueToPlace(s: Schema, d: Json, locs: seq<Loc>)
    requires NonEmpty(locs)
  {
    Covers(LandedBy(d, locs), PlacesOf(s, d, locs)) && Covers(PlacesOf(s, d, locs), LandedBy(d, locs))
  }

  lemma PlacesArePresent(s: Schema, d: Json, locs: seq<Loc>)
    requires WellFormed(s) && AllExtra(s, d, locs)
    ensures AllPresent(d, PlacesOf(s, d, locs))
  {
    forall p | p in PlacesOf(s, d, locs) ensures Present(d, p) {
      var l :| l in locs && p == Place(s, d, l);
      ExtraHasPlace(s, d, l);
    }
  }

  /** Deletion by location takes exactly the unexpected fields out of the
      payload if and only if the locations lead to their true places; for every
      schema, every payload and every order of the locations. */
  lemma DeletionIsExact(s: Schema, d: Json, locs: seq<Loc>)
    requires WellFormed(s) && NonEmpty(locs) && AllExtra(s, d, locs)
    ensures DeleteAll(d, locs) == Without(d, PlacesOf(s, d, locs)) <==> TrueToPlace(s, d, locs)
  {
    PlacesArePresent(s, d, locs);
    DeleteAllRemoves(d, locs);
    SamePayload(d, LandedBy(d, locs), PlacesOf(s, d, locs));
  }

  /** Whatever is accepted is either strictly valid as it stands, or comes from
      one candidate's reported unexpected fields. The value is then the one of
      the payload without exactly those fields, if and only if the locations
      led to their true places. */
  lemma AcceptedIsStrictlyValid(s: Schema, d: Json, errors: seq<Problem>, value: Value, dropped: seq<Loc>)
    requires WellFormed(s) && Listing(s, d, errors) && Accepts(s, d, errors, value, dropped)
    ensures Valid(s, d) ==> value == Parse(s, d) && dropped == []
    ensures !Valid(s, d) ==> exists c :: ReadVia(s, d, errors, c, value, dropped)
  {
    if !Valid(s, d) {
      var c :| AcceptsVia(s, d, errors, c, value, dropped);
      var locs := Locs(ReportedBy(errors, d, c));
      CandidateLocs(s, d, errors, c);
      DeletionIsExact(s, d, locs);
      assert ReadVia(s, d, errors, c, value, dropped);
    }
  }

  ghost predicate ReadVia(s: Schema, d: Json, errors: seq<Problem>, c: Candidate, value: Value, dropped: seq<Loc>) {
    var locs := Locs(ReportedBy(errors, d, c));
    && NonEmpty(locs) && dropped == DroppedBy(d, locs) && dropped != []
    && (forall l :: l in locs <==> CandidateOf(l, d) == c && Reported(s, d, Extra, l))
    && Valid(s, DeleteAll(d, locs)) && value == Parse(s, DeleteAll(d, locs))
    && (TrueToPlace(s, d, locs) <==> DeleteAll(d, locs) == Without(d, PlacesOf(s, d, locs)))
    && (TrueToPlace(s, d, locs) ==>
          Valid(s, Without(d, PlacesOf(s, d, locs))) && value == Parse(s, Without(d, PlacesOf(s, d, locs))))
  }

  /** No two of the fields lie inside one another. */
  ghost predicate SideBySide(s: Schema, d: Json, locs: seq<Loc>) {
    forall a, b :: a in locs && b in locs && Place(s, d, a) <= Place(s, d, b) ==> Place(s, d, a) == Place(s, d, b)
  }

  ghost function PlaceList(s: Schema, d: Json, locs: seq<Loc>): (places: seq<Loc>)
    ensures |places| == |locs| && forall i :: 0 <= i < |locs| ==> places[i] == Place(s, d, locs[i])
    ensures SetOf(places) == PlacesOf(s, d, locs)
  {
    var places := seq(|locs|, i requires 0 <= i < |locs| => Place(s, d, locs[i]));
    assert forall l :: l in locs ==> Place(s, d, l) in places by {
      forall l | l in locs ensures Place(s, d, l) in places {
        var i :| 0 <= i < |locs| && locs[i] == l;
        assert places[i] == Place(s, d, l);
      }
    }
    assert forall p :: p in places ==> p in PlacesOf(s, d, locs) by {
      forall p | p in places ensures p in PlacesOf(s, d, locs) {
        var i :| 0 <= i < |places| && places[i] == p;
        assert locs[i] in locs;
      }
    }
    places
  }

  /** A condition on the payload as it came: if each location lands on its true
      place and no field lies inside another, deletion is exact in every order. */
  lemma LandedIsTrue(s: Schema, d: Json, locs: seq<Loc>)
    requires WellFormed(s) && AllExtra(s, d, locs) && SideBySide(s, d, locs)
    requires forall l :: l in locs ==> Lands(s, d, l)
    ensures NonEmpty(locs) && TrueToPlace(s, d, locs)
    ensures DeleteAll(d, locs) == Without(d, PlacesOf(s, d, locs))
  {
    var places := PlaceList(s, d, locs);
    forall i | 0 <= i < |locs| ensures locs[i] != [] && Landing(d, locs[i]) == Some(places[i]) {
      assert locs[i] in locs;
    }
    forall i, j | 0 <= i < |places| && 0 <= j < |places| && places[i] <= places[j] ensures places[i] == places[j] {
      assert locs[i] in locs && locs[j] in locs;
    }
    LandOnRemoves(d, locs, places);
    DeletionIsExact(s, d, locs);
  }

  // --------------------------------------------- payloads that are not a bare union

  /** The schema is an undiscriminated union, or one that may be null. */
  predicate UnionTop(s: Schema) {
    match s
    case Nullable(inner) => UnionTop(inner)
    case Smart(_) => true
    case _ => false
  }

  /** The one other candidate there can be: a missing field of the payload itself. */
  lemma {:induction false} ErrorsShareCandidate(s: Schema, d: Json, a: Problem, b: Problem)
    requires WellFormed(s) && !UnionTop(s)
    requires Reported(s, d, a.kind, a.loc) && Reported(s, d, b.kind, b.loc)
    requires a.loc != [] && b.loc != [] && CandidateOf(a.loc, d) != CandidateOf(b.loc, d)
    ensures (TopMissing(s, d, a) && a.kind == Missing) || (TopMissing(s, d, b) && b.kind == Missing)
  {
    if s.Nullable? {
      ErrorsShareCandidate(s.inner, d, a, b);
    }
  }

  /** A required field of the payload itself is missing. */
  predicate TopMissing(s: Schema, d: Json, p: Problem) {
    match s
    case Nullable(inner) => TopMissing(inner, d, p)
    case Model(fields) =>
      && p.kind == Missing && |p.loc| == 1 && p.loc[0].Key?
      && d.Obj? && p.loc[0].name !in d.fields && p.loc[0].name in fields && fields[p.loc[0].name].required
    case _ => false
  }

  /** No deletion brings a missing field. */
  lemma {:induction false} TopMissingStays(s: Schema, d: Json, gone: set<Loc>, p: Problem)
    requires TopMissing(s, d, p)
    ensures !Valid(s, Without(d, gone))
  {
    if s.Nullable? {
      TopMissingStays(s.inner, d, gone, p);
    }
  }

  /** A payload about which anybody complains of more than unexpected fields is
      rejected, whatever unexpected fields it carries besides: every schema
      that is not itself a bare union, nested unions included. */
  lemma WrongIsStillRejected(s: Schema, d: Json, errors: seq<Problem>, kind: Kind, loc: Loc)
    requires WellFormed(s) && !UnionTop(s) && Listing(s, d, errors)
    requires Reported(s, d, kind, loc) && kind != Extra
    ensures !Accepting(s, d, errors)
  {
    var bad := Problem(kind, loc);
    assert bad in errors;
    if Valid(s, d) {
      ValidIsQuiet(s, d, kind, loc);
    }
    forall c, value, dropped ensures !AcceptsVia(s, d, errors, c, value, dropped) {
      if Offers(errors, d, c) {
        var locs := Locs(ReportedBy(errors, d, c));
        var p := ReportedBy(errors, d, c)[0];
        ReportedByMember(errors, d, c, p);
        ReportedByMember(errors, d, c, bad);
        assert loc != [];
        if CandidateOf(loc, d) != c {
          ErrorsShareCandidate(s, d, bad, p);
          DeleteAllRemoves(d, locs);
          TopMissingStays(s, d, LandedBy(d, locs), bad);
        }
      }
    }
  }

  /** If nobody complains of more, all errors belong to one candidate. */
  lemma AllFromOne(s: Schema, d: Json, errors: seq<Problem>) returns (c: Candidate)
    requires WellFormed(s) && !UnionTop(s) && Listing(s, d, errors) && OnlyExtra(s, d) && !Valid(s, d)
    ensures ReportedBy(errors, d, c) == errors
    ensures Located(errors) && Forgivable(errors) && (d.Obj? || d.Arr?)
  {
    forall i | 0 <= i < |errors| ensures errors[i].kind == Extra && errors[i].loc != [] && (d.Obj? || d.Arr?) {
      assert errors[i] in errors;
      ExtraHasPlace(s, d, errors[i].loc);
    }
    var kind, loc := Complaint(s, d);
    assert Problem(kind, loc) in errors;
    c := CandidateOf(loc, d);
    forall i | 0 <= i < |errors| ensures CandidateOf(errors[i].loc, d) == c {
      assert errors[i] in errors;
      if CandidateOf(errors[i].loc, d) != c {
        ErrorsShareCandidate(s, d, errors[i], Problem(kind, loc));
      }
    }
    WholeGroup(errors, d, c);
  }

  lemma {:induction false} WholeGroup(errors: seq<Problem>, d: Json, c: Candidate)
    requires forall i :: 0 <= i < |errors| ==> CandidateOf(errors[i].loc, d) == c
    ensures ReportedBy(errors, d, c) == errors
  {
    if errors != [] {
      WholeGroup(errors[1..], d, c);
      assert errors == [errors[0]] + errors[1..];
    }
  }

  /** Nested unions, exactly: a payload that is not strictly valid is accepted
      if and only if every member of every union it meets, like everybody else,
      complains of unexpected fields only, and deleting all of them together
      leaves a valid payload. That payload's value is the answer. */
  lemma NestedExact(s: Schema, d: Json, errors: seq<Problem>, value: Value, dropped: seq<Loc>)
    requires WellFormed(s) && !UnionTop(s) && Listing(s, d, errors) && !Valid(s, d)
    ensures Accepts(s, d, errors, value, dropped) <==>
              && OnlyExtra(s, d)
              && var locs := Locs(errors);
                 && NonEmpty(locs)
                 && Valid(s, DeleteAll(d, locs)) && value == Parse(s, DeleteAll(d, locs))
                 && dropped == DroppedBy(d, locs)
  {
    if OnlyExtra(s, d) {
      var c := AllFromOne(s, d, errors);
      WholeGroupAnswers(s, d, errors, c, value, dropped);
    } else {
      var kind, loc :| Reported(s, d, kind, loc) && kind != Extra;
      WrongIsStillRejected(s, d, errors, kind, loc);
      assert !Accepts(s, d, errors, value, dropped);
    }
  }

  lemma SoleOffer(errors: seq<Problem>, d: Json, c: Candidate, other: Candidate)
    requires ReportedBy(errors, d, c) == errors && Offers(errors, d, other)
    ensures other == c
  {
    var p := ReportedBy(errors, d, other)[0];
    ReportedByMember(errors, d, other, p);
    ReportedByMember(errors, d, c, p);
  }

  lemma SoleCandidate(s: Schema, d: Json, errors: seq<Problem>, c: Candidate, value: Value, dropped: seq<Loc>)
    requires !Valid(s, d) && ReportedBy(errors, d, c) == errors
    ensures Accepts(s, d, errors, value, dropped) <==> AcceptsVia(s, d, errors, c, value, dropped)
  {
    forall other | AcceptsVia(s, d, errors, other, value, dropped) ensures other == c {
      SoleOffer(errors, d, c, other);
    }
  }

  /** When all errors are one forgivable group, that group gives the only answer. */
  lemma WholeGroupAnswers(s: Schema, d: Json, errors: seq<Problem>, c: Candidate, value: Value, dropped: seq<Loc>)
    requires !Valid(s, d) && ReportedBy(errors, d, c) == errors
    requires Located(errors) && Forgivable(errors) && (d.Obj? || d.Arr?)
    ensures Accepts(s, d, errors, value, dropped) <==> Answers(s, d, errors, c, value, dropped)
  {
    GroupAnswers(s, d, errors, c, value, dropped);
    SoleCandidate(s, d, errors, c, value, dropped);
  }

  /** Where the locations lead to their true places, the answer does not depend
      on the order of the errors: it is the payload without everything that any
      member calls unexpected. */
  lemma NestedPruning(s: Schema, d: Json, errors: seq<Problem>)
    requires WellFormed(s) && !UnionTop(s) && Listing(s, d, errors) && !Valid(s, d)
    requires OnlyExtra(s, d) ==> NonEmpty(Locs(errors)) && TrueToPlace(s, d, Locs(errors))
    ensures var rest := Without(d, PlacesOf(s, d, Locs(errors)));
      && (Accepting(s, d, errors) <==> OnlyExtra(s, d) && Valid(s, rest))
      && (forall value, dropped :: Accepts(s, d, errors, value, dropped) ==>
            Valid(s, rest) && value == Parse(s, rest))
  {
    var locs := Locs(errors);
    if OnlyExtra(s, d) {
      forall l | l in locs ensures Reported(s, d, Extra, l) {
        InLocs(errors, l);
      }
      DeletionIsExact(s, d, locs);
      var rest := Without(d, PlacesOf(s, d, locs));
      if Valid(s, rest) {
        NestedExact(s, d, errors, Parse(s, rest), DroppedBy(d, locs));
      }
    }
    forall value, dropped | Accepts(s, d, errors, value, dropped)
      ensures OnlyExtra(s, d) && Valid(s, DeleteAll(d, locs)) && value == Parse(s, DeleteAll(d, locs))
    {
      NestedExact(s, d, errors, value, dropped);
    }
  }

  // ------------------------------------------------ without undiscriminated unions

  /** Deleting one unexpected field that lands silences exactly its report. */
  lemma DeleteExtra(s: Schema, d: Json, loc: Loc)
    requires Flat(s) && WellFormed(s) && Reported(s, d, Extra, loc) && Lands(s, d, loc)
    ensures loc != [] && OnlyGone(s, d, DeleteOne(d, loc), loc) && Hits(d, loc)
    ensures DeleteOne(d, loc) == Without(d, {Place(s, d, loc)})
  {
    DeleteOneRemoves(d, loc);
    RemoveExtra(s, d, loc);
  }

  /** What taking unexpected fields from their places changes. */
  ghost predicate AllGone(s: Schema, d: Json, d': Json, locs: seq<Loc>) {
    && (forall kind, l :: Reported(s, d', kind, l) <==> Reported(s, d, kind, l) && !(kind == Extra && l in locs))
    && Prune(s, d') == Prune(s, d)
  }

  lemma GoneThenAllGone(s: Schema, d: Json, d1: Json, d2: Json, first: Loc, rest: seq<Loc>)
    requires OnlyGone(s, d, d1, first) && AllGone(s, d1, d2, rest)
    ensures AllGone(s, d, d2, [first] + rest)
  {
  }

  lemma PlacesStep(s: Schema, d: Json, d1: Json, first: Loc, rest: seq<Loc>)
    requires forall l :: l in rest ==> Place(s, d1, l) == Place(s, d, l)
    ensures PlacesOf(s, d, [first] + rest) == {Place(s, d, first)} + PlacesOf(s, d1, rest)
  {
    assert PlacesOf(s, d1, rest) == PlacesOf(s, d, rest);
    forall l ensures l in [first] + rest <==> l == first || l in rest {}
  }

  lemma {:induction false} RemoveExtras(s: Schema, d: Json, locs: seq<Loc>)
    requires Flat(s) && WellFormed(s) && AllExtra(s, d, locs) && Distinct(locs)
    ensures AllGone(s, d, Without(d, PlacesOf(s, d, locs)), locs)
    decreases |locs|
  {
    if locs == [] {
      assert PlacesOf(s, d, locs) == {};
      WithoutNothing(d);
    } else {
      var first, rest := locs[0], locs[1..];
      var p := Place(s, d, first);
      var d1 := Without(d, {p});
      assert first in locs && first !in rest && locs == [first] + rest;
      RemoveExtra(s, d, first);
      forall l | l in rest ensures Reported(s, d1, Extra, l) && Place(s, d1, l) == Place(s, d, l) {
        assert l in locs && l != first;
      }
      assert Distinct(rest);
      RemoveExtras(s, d1, rest);
      PlacesStep(s, d, d1, first, rest);
      WithoutTwice(d, {p}, PlacesOf(s, d1, rest));
      GoneThenAllGone(s, d, d1, Without(d1, PlacesOf(s, d1, rest)), first, rest);
    }
  }

  lemma FlatSideBySide(s: Schema, d: Json, locs: seq<Loc>)
    requires Flat(s) && WellFormed(s) && AllExtra(s, d, locs)
    ensures SideBySide(s, d, locs)
    ensures Distinct(locs) ==> Distinct(PlaceList(s, d, locs))
  {
    forall a, b | a in locs && b in locs && Place(s, d, a) <= Place(s, d, b) ensures a == b {
      PlacesApart(s, d, a, b);
    }
    var places := PlaceList(s, d, locs);
    forall i, j | 0 <= i < j < |locs| && Distinct(locs) ensures places[i] != places[j] {
      assert locs[i] in locs && locs[j] in locs;
      assert locs[i] != locs[j] && !(Place(s, d, locs[i]) <= Place(s, d, locs[j]));
    }
  }

  /** Locations that land on the places of these unexpected fields, under
      whatever names, remove exactly them. */
  lemma FlatRemoved(s: Schema, d: Json, locs: seq<Loc>, fields: seq<Loc>)
    requires Flat(s) && WellFormed(s) && AllExtra(s, d, fields) && Distinct(fields)
    requires |locs| == |fields| && NonEmpty(locs)
    requires forall i :: 0 <= i < |locs| ==> Landing(d, locs[i]) == Some(Place(s, d, fields[i]))
    ensures DeleteAll(d, locs) == Without(d, PlacesOf(s, d, fields))
    ensures AllGone(s, d, DeleteAll(d, locs), fields)
    ensures DroppedBy(d, locs) == locs
  {
    FlatSideBySide(s, d, fields);
    var places := PlaceList(s, d, fields);
    forall i, j | 0 <= i < |places| && 0 <= j < |places| && places[i] <= places[j] ensures places[i] == places[j] {
      assert fields[i] in fields && fields[j] in fields;
    }
    LandOnRemoves(d, locs, places);
    RemoveExtras(s, d, fields);
  }

  /** Deleting any set of reported unexpected fields that land silences exactly
      those reports, and every deletion removes a field. */
  lemma DeleteExtras(s: Schema, d: Json, locs: seq<Loc>)
    requires Flat(s) && WellFormed(s) && AllExtra(s, d, locs) && Distinct(locs)
    requires forall l :: l in locs ==> Lands(s, d, l)
    ensures NonEmpty(locs)
    ensures AllGone(s, d, DeleteAll(d, locs), locs)
    ensures DroppedBy(d, locs) == locs
  {
    forall i | 0 <= i < |locs| ensures locs[i] != [] && Landing(d, locs[i]) == Some(Place(s, d, locs[i])) {
      assert locs[i] in locs;
    }
    FlatRemoved(s, d, locs, locs);
  }

  /** When unexpected fields are all that is wrong, taking them all away is
      pruning, and what is left is valid. */
  lemma AllGoneIsPrune(s: Schema, d: Json, d': Json, fields: seq<Loc>)
    requires Flat(s) && WellFormed(s) && AllGone(s, d, d', fields) && OnlyExtra(s, d)
    requires forall l :: l in fields <==> Reported(s, d, Extra, l)
    ensures Valid(s, d') && d' == Prune(s, d)
  {
    NoComplaintsMeansValid(s, d');
    PruneOfValid(s, d');
  }

  /** Deleting every unexpected field is pruning, if they all land. */
  lemma DeleteAllIsPrune(s: Schema, d: Json, locs: seq<Loc>)
    requires Flat(s) && WellFormed(s) && AllLand(s, d)
    requires Distinct(locs) && forall l :: l in locs <==> Reported(s, d, Extra, l)
    ensures NonEmpty(locs) && DroppedBy(d, locs) == locs
    ensures OnlyExtra(s, d) ==> Valid(s, DeleteAll(d, locs)) && DeleteAll(d, locs) == Prune(s, d)
  {
    DeleteExtras(s, d, locs);
    if OnlyExtra(s, d) {
      AllGoneIsPrune(s, d, DeleteAll(d, locs), locs);
    }
  }

  lemma ValidIsPlain(s: Schema, d: Json)
    requires Flat(s) && Valid(s, d)
    ensures OnlyExtra(s, d) && AllLand(s, d) && Prune(s, d) == d
    ensures forall kind, l :: !Reported(s, d, kind, l)
  {
    PruneOfValid(s, d);
    forall kind, l ensures !Reported(s, d, kind, l) {
      ValidIsQuiet(s, d, kind, l);
    }
  }

  /** Without undiscriminated unions the tolerant reader accepts a payload if and
      only if unexpected fields are all that is wrong with it and each of their
      locations lands on its true place. It then yields the pruned payload's
      value and names exactly the unexpected fields. */
  lemma FlatExact(s: Schema, d: Json, errors: seq<Problem>)
    requires Flat(s) && WellFormed(s) && Listing(s, d, errors)
    ensures Accepting(s, d, errors) <==> OnlyExtra(s, d) && AllLand(s, d)
    ensures OnlyExtra(s, d) ==> Valid(s, Prune(s, d))
    ensures forall value, dropped :: Accepts(s, d, errors, value, dropped) ==>
              && OnlyExtra(s, d) && AllLand(s, d)
              && value == Parse(s, Prune(s, d))
              && Distinct(dropped) && forall l :: l in dropped <==> Reported(s, d, Extra, l)
  {
    if Valid(s, d) {
      ValidIsPlain(s, d);
      assert Accepts(s, d, errors, Parse(s, d), []);
    } else if OnlyExtra(s, d) {
      FlatExtras(s, d, errors);
      forall value, dropped
        ensures Accepts(s, d, errors, value, dropped) <==>
                  AllLand(s, d) && value == Parse(s, Prune(s, d)) && dropped == Locs(errors)
      {
        FlatAnswer(s, d, errors, value, dropped);
      }
      if AllLand(s, d) {
        assert Accepts(s, d, errors, Parse(s, Prune(s, d)), Locs(errors));
      }
    } else {
      FlatIsNoUnion(s);
      var kind, loc :| Reported(s, d, kind, loc) && kind != Extra;
      WrongIsStillRejected(s, d, errors, kind, loc);
    }
  }

  lemma FlatAnswer(s: Schema, d: Json, errors: seq<Problem>, value: Value, dropped: seq<Loc>)
    requires Flat(s) && WellFormed(s) && Listing(s, d, errors) && OnlyExtra(s, d) && !Valid(s, d)
    requires Valid(s, Prune(s, d))
    ensures Accepts(s, d, errors, value, dropped) <==>
              AllLand(s, d) && value == Parse(s, Prune(s, d)) && dropped == Locs(errors)
  {
    var locs := Locs(errors);
    FlatIsNoUnion(s);
    FlatExtras(s, d, errors);
    NestedExact(s, d, errors, value, dropped);
    if AllLand(s, d) {
      DeleteAllIsPrune(s, d, locs);
    } else if NonEmpty(locs) && Valid(s, DeleteAll(d, locs)) {
      FlatMustLand(s, d, locs);
    }
  }

  lemma {:induction false} FlatIsNoUnion(s: Schema)
    requires Flat(s)
    ensures !UnionTop(s)
  {
    if s.Nullable? {
      FlatIsNoUnion(s.inner);
    }
  }

  lemma FlatExtras(s: Schema, d: Json, errors: seq<Problem>)
    requires Flat(s) && WellFormed(s) && Listing(s, d, errors) && OnlyExtra(s, d)
    ensures Distinct(Locs(errors)) && forall l :: l in Locs(errors) <==> Reported(s, d, Extra, l)
    ensures Valid(s, Prune(s, d))
  {
    var locs := Locs(errors);
    forall i | 0 <= i < |errors| ensures errors[i].kind == Extra {
      assert errors[i] in errors;
    }
    ExtraLocsDistinct(errors);
    forall l ensures l in locs <==> Reported(s, d, Extra, l) {
      InLocs(errors, l);
      assert Problem(Extra, l) in errors <==> Reported(s, d, Extra, l);
    }
    RemoveExtras(s, d, locs);
    AllGoneIsPrune(s, d, Without(d, PlacesOf(s, d, locs)), locs);
  }

  /** If deleting unexpected fields left a valid payload, every unexpected field
      was found where it is. */
  lemma FlatMustLand(s: Schema, d: Json, locs: seq<Loc>)
    requires Flat(s) && WellFormed(s) && NonEmpty(locs) && AllExtra(s, d, locs) && Valid(s, DeleteAll(d, locs))
    ensures AllLand(s, d)
  {
    forall l | Reported(s, d, Extra, l) ensures Lands(s, d, l) {
      ExtraHasPlace(s, d, l);
      if !Lands(s, d, l) {
        NoPrefix(locs);
        assert [] + l == l;
        Spoiled(s, d, [], locs, l);
      }
    }
  }

  /** A newer publisher: add unknown fields to a valid payload at any depth. The
      reader accepts it if and only if the additions land, and then with the
      value it had before, dropping exactly what was added. */
  lemma AdditionsAreTolerated(s: Schema, base: Json, d: Json, errors: seq<Problem>)
    requires Flat(s) && WellFormed(s) && Valid(s, base) && Grown(s, base, d) && Listing(s, d, errors)
    ensures Accepting(s, d, errors) <==> AllLand(s, d)
    ensures forall value, dropped :: Accepts(s, d, errors, value, dropped) ==>
              && value == Parse(s, base)
              && Distinct(dropped) && forall l :: l in dropped <==> Reported(s, d, Extra, l)
  {
    GrownPrunesBack(s, base, d);
    forall kind, l | Reported(s, d, kind, l) ensures kind == Extra {
      GrownIsOnlyExtra(s, base, d, kind, l);
    }
    FlatExact(s, d, errors);
  }

  /** In particular where no payload key is spelled like a tag. */
  lemma TagFreeAdditionsAreTolerated(s: Schema, base: Json, d: Json, errors: seq<Problem>)
    requires Flat(s) && WellFormed(s) && Valid(s, base) && Grown(s, base, d) && Listing(s, d, errors)
    requires TagFree(s, d)
    ensures Read(s, d, errors).Accepted? && Read(s, d, errors).value == Parse(s, base)
  {
    forall l | Reported(s, d, Extra, l) ensures Lands(s, d, l) {
      TagFreeLands(s, d, l);
    }
    AdditionsAreTolerated(s, base, d, errors);
    ReadIsAccepted(s, d, errors);
  }

  // ------------------------------------------------ a union of messages at the top

  /** The member's name does not stand for the member: the payload is no object,
      or has a key of that name. */
  predicate Hidden(s: Schema, d: Json, i: nat)
    requires s.Smart? && i < |s.options|
  {
    !d.Obj? || s.options[i].name in d.fields
  }

  function CandidateFor(s: Schema, d: Json, i: nat): Candidate
    requires s.Smart? && i < |s.options|
  {
    if Hidden(s, d, i) then Payload else Named(Key(s.options[i].name))
  }

  /** The members that stand behind a candidate complain of unexpected fields
      only, and there is one: a member of its own name, or all the hidden ones. */
  ghost predicate Pure(s: Schema, d: Json, c: Candidate)
    requires s.Smart?
  {
    && (exists i :: 0 <= i < |s.options| && CandidateFor(s, d, i) == c)
    && (forall i :: 0 <= i < |s.options| && CandidateFor(s, d, i) == c ==> OnlyExtra(s.options[i].schema, d))
  }

  lemma MemberOf(s: Schema, d: Json, kind: Kind, loc: Loc) returns (i: nat)
    requires s.Smart? && Reported(s, d, kind, loc)
    ensures i < |s.options| && loc != [] && loc[0] == Key(s.options[i].name)
    ensures Reported(s.options[i].schema, d, kind, loc[1..])
    ensures CandidateOf(loc, d) == CandidateFor(s, d, i)
  {
    var j: int :| 0 <= j < |s.options| && loc[0] == Key(s.options[j].name)
                  && Reported(s.options[j].schema, d, kind, loc[1..]);
    i := j;
  }

  lemma MemberReports(s: Schema, d: Json, errors: seq<Problem>, i: nat, kind: Kind, l: Loc)
    requires s.Smart? && WellFormed(s) && Listing(s, d, errors) && !Valid(s, d) && i < |s.options|
    requires Reported(s.options[i].schema, d, kind, l)
    ensures Problem(kind, [Key(s.options[i].name)] + l) in ReportedBy(errors, d, CandidateFor(s, d, i))
  {
    var loc := [Key(s.options[i].name)] + l;
    assert loc[0] == Key(s.options[i].name) && loc[1..] == l;
    assert Problem(kind, loc) in errors;
    ReportedByMember(errors, d, CandidateFor(s, d, i), Problem(kind, loc));
  }

  lemma OnlyForgivable(s: Schema, d: Json, errors: seq<Problem>, c: Candidate, i: nat)
    requires s.Smart? && WellFormed(s) && Listing(s, d, errors) && !Valid(s, d)
    requires Forgivable(ReportedBy(errors, d, c)) && i < |s.options| && CandidateFor(s, d, i) == c
    ensures OnlyExtra(s.options[i].schema, d)
  {
    forall kind, l | Reported(s.options[i].schema, d, kind, l) ensures kind == Extra {
      MemberReports(s, d, errors, i, kind, l);
    }
  }

  lemma PureIsForgivable(s: Schema, d: Json, errors: seq<Problem>, c: Candidate)
    requires s.Smart? && WellFormed(s) && Listing(s, d, errors) && !Valid(s, d) && Pure(s, d, c)
    ensures Forgivable(ReportedBy(errors, d, c))
  {
    var problems := ReportedBy(errors, d, c);
    forall k | 0 <= k < |problems| ensures problems[k].kind == Extra && problems[k].loc != [] {
      assert problems[k] in problems;
      ReportedByMember(errors, d, c, problems[k]);
      var i := MemberOf(s, d, problems[k].kind, problems[k].loc);
    }
    var i :| 0 <= i < |s.options| && CandidateFor(s, d, i) == c;
    var kind, l := Complaint(s.options[i].schema, d);
    MemberReports(s, d, errors, i, kind, l);
  }

  /** A candidate's errors are forgivable exactly if its members are pure. */
  lemma ForgivableIsPure(s: Schema, d: Json, errors: seq<Problem>, c: Candidate)
    requires s.Smart? && WellFormed(s) && Listing(s, d, errors) && !Valid(s, d)
    ensures Forgivable(ReportedBy(errors, d, c)) <==> Pure(s, d, c)
  {
    if Forgivable(ReportedBy(errors, d, c)) {
      var first := ReportedBy(errors, d, c)[0];
      ReportedByMember(errors, d, c, first);
      var i := MemberOf(s, d, first.kind, first.loc);
      forall j | 0 <= j < |s.options| && CandidateFor(s, d, j) == c ensures OnlyExtra(s.options[j].schema, d) {
        OnlyForgivable(s, d, errors, c, j);
      }
    }
    if Pure(s, d, c) {
      PureIsForgivable(s, d, errors, c);
    }
  }

  /** Top-level unions, exactly, for members of any schema and any payload: one
      that is not strictly valid is accepted if and only if the members behind
      some candidate complain of unexpected fields only and deleting those
      leaves a payload the union reads. Members whose name is a payload key are
      one candidate together. */
  lemma UnionGroups(s: Schema, d: Json, errors: seq<Problem>, value: Value, dropped: seq<Loc>)
    requires s.Smart? && WellFormed(s) && Listing(s, d, errors) && !Valid(s, d)
    ensures Accepts(s, d, errors, value, dropped) <==>
              exists c :: Pure(s, d, c) && Answers(s, d, errors, c, value, dropped)
  {
    forall c
      ensures AcceptsVia(s, d, errors, c, value, dropped) <==>
                Pure(s, d, c) && Answers(s, d, errors, c, value, dropped)
    {
      CandidateAnswers(s, d, errors, c, value, dropped);
    }
  }

  lemma CandidateAnswers(s: Schema, d: Json, errors: seq<Problem>, c: Candidate, value: Value, dropped: seq<Loc>)
    requires s.Smart? && WellFormed(s) && Listing(s, d, errors) && !Valid(s, d)
    ensures AcceptsVia(s, d, errors, c, value, dropped) <==>
              Pure(s, d, c) && Answers(s, d, errors, c, value, dropped)
  {
    ForgivableIsPure(s, d, errors, c);
    if Pure(s, d, c) {
      UnionLocated(s, d, errors, c);
      GroupAnswers(s, d, errors, c, value, dropped);
    }
  }

  lemma UnionLocated(s: Schema, d: Json, errors: seq<Problem>, c: Candidate)
    requires s.Smart? && WellFormed(s) && Listing(s, d, errors) && Forgivable(ReportedBy(errors, d, c))
    ensures Located(errors) && (d.Obj? || d.Arr?)
  {
    var locs := Locs(ReportedBy(errors, d, c));
    CandidateLocs(s, d, errors, c);
    assert locs[0] in locs;
    ExtraHasPlace(s, d, locs[0]);
    forall i | 0 <= i < |errors| ensures errors[i].loc != [] {
      assert errors[i] in errors;
    }
  }

  /** Each of the member's unexpected fields is found where it is, by the
      location it is reported under. */
  ghost predicate FoundUnder(s: Schema, d: Json, i: nat)
    requires s.Smart? && i < |s.options|
  {
    var m := s.options[i].schema;
    forall l :: Reported(m, d, Extra, l) ==> Landing(d, [Key(s.options[i].name)] + l) == Some(Place(m, d, l))
  }

  /** At most one member's name is a key of the payload. */
  predicate HiddenAlone(s: Schema, d: Json)
    requires s.Smart?
  {
    d.Obj? ==>
      forall i, j :: 0 <= i < j < |s.options| ==> !(Hidden(s, d, i) && Hidden(s, d, j))
  }

  /** A union of closed models, of which at most one has its name hidden by a
      key, and no member misled about its unexpected fields. */
  ghost predicate UnionReady(s: Schema, d: Json) {
    && s.Smart? && WellFormed(s) && HiddenAlone(s, d)
    && (forall i :: 0 <= i < |s.options| ==>
          && s.options[i].schema.Model? && Flat(s.options[i].schema)
          && (OnlyExtra(s.options[i].schema, d) ==> FoundUnder(s, d, i)))
  }

  /** A simple way to make sure of it: no key is spelled like a member, and the
      fields land for the members themselves. */
  lemma PlainUnionIsReady(s: Schema, d: Json)
    requires s.Smart? && WellFormed(s)
    requires forall i :: 0 <= i < |s.options| ==>
               && s.options[i].schema.Model? && Flat(s.options[i].schema)
               && (d.Obj? ==> s.options[i].name !in d.fields) && AllLand(s.options[i].schema, d)
    ensures UnionReady(s, d)
  {
    forall i | 0 <= i < |s.options| && OnlyExtra(s.options[i].schema, d) ensures FoundUnder(s, d, i) {
      var m := s.options[i].schema;
      forall l | Reported(m, d, Extra, l) ensures Landing(d, [Key(s.options[i].name)] + l) == Some(Place(m, d, l)) {
        assert Lands(m, d, l);
        assert ([Key(s.options[i].name)] + l)[1..] == l;
      }
    }
  }

  /** Taking a common first step off distinct locations. */
  lemma CommonHead(locs: seq<Loc>, head: Step)
    requires NonEmpty(locs) && Distinct(locs) && forall j :: 0 <= j < |locs| ==> locs[j][0] == head
    ensures Distinct(Tails(locs))
    ensures forall l :: l in Tails(locs) <==> [head] + l in locs
  {
    var tails := Tails(locs);
    forall j | 0 <= j < |locs| ensures locs[j] == [head] + tails[j] {}
    forall l ensures l in tails <==> [head] + l in locs {
      if [head] + l in locs {
        var j :| 0 <= j < |locs| && locs[j] == [head] + l;
        assert tails[j] == l;
      }
    }
  }

  /** The unexpected fields of a member, under its name. */
  ghost predicate FieldsOf(s: Schema, d: Json, i: nat, locs: seq<Loc>)
    requires s.Smart? && i < |s.options|
  {
    && Distinct(locs)
    && forall l :: l in locs <==>
         l != [] && l[0] == Key(s.options[i].name) && Reported(s.options[i].schema, d, Extra, l[1..])
  }

  lemma MemberLocs(s: Schema, d: Json, errors: seq<Problem>, i: nat)
    requires UnionReady(s, d) && !Valid(s, d) && Listing(s, d, errors) && d.Obj? && i < |s.options|
    requires Forgivable(ReportedBy(errors, d, CandidateFor(s, d, i)))
    ensures
      var locs := Locs(ReportedBy(errors, d, CandidateFor(s, d, i)));
      FieldsOf(s, d, i, locs) && NonEmpty(locs)
  {
    var head, c, m := Key(s.options[i].name), CandidateFor(s, d, i), s.options[i].schema;
    CandidateLocs(s, d, errors, c);
    var locs := Locs(ReportedBy(errors, d, c));
    forall l ensures l in locs <==> l != [] && l[0] == head && Reported(m, d, Extra, l[1..]) {
      if l in locs {
        var k := MemberOf(s, d, Extra, l);
      }
    }
  }

  lemma MemberFields(s: Schema, d: Json, errors: seq<Problem>, i: nat)
    requires UnionReady(s, d) && !Valid(s, d) && Listing(s, d, errors) && d.Obj? && i < |s.options|
    requires OnlyExtra(s.options[i].schema, d)
    ensures
      var locs := Locs(ReportedBy(errors, d, CandidateFor(s, d, i)));
      && Forgivable(ReportedBy(errors, d, CandidateFor(s, d, i)))
      && FieldsOf(s, d, i, locs) && NonEmpty(locs)
      && Distinct(Tails(locs)) && forall l :: l in Tails(locs) <==> Reported(s.options[i].schema, d, Extra, l)
  {
    var head, c, m := Key(s.options[i].name), CandidateFor(s, d, i), s.options[i].schema;
    assert forall j :: 0 <= j < |s.options| && CandidateFor(s, d, j) == c ==> j == i;
    PureIsForgivable(s, d, errors, c);
    MemberLocs(s, d, errors, i);
    var locs := Locs(ReportedBy(errors, d, c));
    CommonHead(locs, head);
    forall l ensures l in Tails(locs) <==> Reported(m, d, Extra, l) {
      assert ([head] + l)[0] == head && ([head] + l)[1..] == l;
    }
  }

  /** Its variant of the payload is the one its own schema prunes to. */
  lemma MemberPruned(s: Schema, d: Json, errors: seq<Problem>, i: nat)
    requires UnionReady(s, d) && !Valid(s, d) && Listing(s, d, errors) && d.Obj? && i < |s.options|
    requires OnlyExtra(s.options[i].schema, d)
    ensures
      var m, locs := s.options[i].schema, Locs(ReportedBy(errors, d, CandidateFor(s, d, i)));
      && Valid(m, Prune(m, d)) && Valid(s, Prune(m, d))
      && NonEmpty(locs) && DeleteAll(d, locs) == Prune(m, d) && DroppedBy(d, locs) == locs
  {
    var m := s.options[i].schema;
    var locs := Locs(ReportedBy(errors, d, CandidateFor(s, d, i)));
    MemberFields(s, d, errors, i);
    var fields := Tails(locs);
    forall k | 0 <= k < |locs| ensures Landing(d, locs[k]) == Some(Place(m, d, fields[k])) {
      assert fields[k] in fields && locs[k] in locs;
      assert FoundUnder(s, d, i) && locs[k] == [Key(s.options[i].name)] + fields[k];
    }
    FlatRemoved(m, d, locs, fields);
    AllGoneIsPrune(m, d, DeleteAll(d, locs), fields);
  }

  /** The union's reading of one member's pruning, and what that drops. */
  ghost predicate UnionVerdict(s: Schema, d: Json, i: nat, value: Value, dropped: seq<Loc>)
    requires s.Smart? && i < |s.options|
  {
    var m := s.options[i].schema;
    && OnlyExtra(m, d) && Valid(s, Prune(m, d)) && value == Parse(s, Prune(m, d))
    && FieldsOf(s, d, i, dropped)
  }

  lemma AnswerIsVerdict(s: Schema, d: Json, errors: seq<Problem>, value: Value, dropped: seq<Loc>) returns (i: nat)
    requires UnionReady(s, d) && Listing(s, d, errors) && !Valid(s, d) && Accepts(s, d, errors, value, dropped)
    ensures i < |s.options| && UnionVerdict(s, d, i, value, dropped)
  {
    UnionGroups(s, d, errors, value, dropped);
    var c :| Pure(s, d, c) && Answers(s, d, errors, c, value, dropped);
    var k: int :| 0 <= k < |s.options| && CandidateFor(s, d, k) == c;
    i := k;
    MemberIsObject(s, d, i);
    MemberFields(s, d, errors, i);
    MemberPruned(s, d, errors, i);
  }

  /** A top-level union of models accepts exactly the payloads that some member
      finds merely newer; it yields what the union makes of that member's
      pruning, and drops exactly the fields that member did not expect. */
  lemma UnionExact(s: Schema, d: Json, errors: seq<Problem>)
    requires UnionReady(s, d) && Listing(s, d, errors)
    ensures Accepting(s, d, errors) <==> exists i :: 0 <= i < |s.options| && OnlyExtra(s.options[i].schema, d)
    ensures forall value, dropped :: Accepts(s, d, errors, value, dropped) && !Valid(s, d) ==>
              exists i :: 0 <= i < |s.options| && UnionVerdict(s, d, i, value, dropped)
    ensures !Valid(s, d) ==> forall i :: 0 <= i < |s.options| && OnlyExtra(s.options[i].schema, d) ==>
              exists value, dropped :: UnionVerdict(s, d, i, value, dropped) && Accepts(s, d, errors, value, dropped)
  {
    if Valid(s, d) {
      ValidMemberIsQuiet(s, d);
      assert Accepts(s, d, errors, Parse(s, d), []);
    } else {
      forall value, dropped | Accepts(s, d, errors, value, dropped)
        ensures exists i :: 0 <= i < |s.options| && UnionVerdict(s, d, i, value, dropped)
      {
        var i := AnswerIsVerdict(s, d, errors, value, dropped);
      }
      forall i | 0 <= i < |s.options| && OnlyExtra(s.options[i].schema, d)
        ensures exists value, dropped :: UnionVerdict(s, d, i, value, dropped) && Accepts(s, d, errors, value, dropped)
      {
        MemberIsAccepted(s, d, errors, i);
      }
    }
  }

  lemma ValidMemberIsQuiet(s: Schema, d: Json)
    requires s.Smart? && Valid(s, d)
    ensures exists i :: 0 <= i < |s.options| && Valid(s.options[i].schema, d) && OnlyExtra(s.options[i].schema, d)
  {
    var i :| 0 <= i < |s.options| && Valid(s.options[i].schema, d);
    forall kind, l ensures !Reported(s.options[i].schema, d, kind, l) {
      ValidIsQuiet(s.options[i].schema, d, kind, l);
    }
    assert OnlyExtra(s.options[i].schema, d);
  }

  lemma MemberIsObject(s: Schema, d: Json, i: nat)
    requires UnionReady(s, d) && i < |s.options| && OnlyExtra(s.options[i].schema, d)
    ensures d.Obj?
  {
    assert !d.Obj? ==> Reported(s.options[i].schema, d, WrongType, []);
  }

  lemma MemberIsAccepted(s: Schema, d: Json, errors: seq<Problem>, i: nat)
    requires UnionReady(s, d) && Listing(s, d, errors) && !Valid(s, d)
    requires i < |s.options| && OnlyExtra(s.options[i].schema, d)
    ensures exists value, dropped :: UnionVerdict(s, d, i, value, dropped) && Accepts(s, d, errors, value, dropped)
  {
    var c, m := CandidateFor(s, d, i), s.options[i].schema;
    var locs := Locs(ReportedBy(errors, d, c));
    MemberIsObject(s, d, i);
    MemberFields(s, d, errors, i);
    MemberPruned(s, d, errors, i);
    assert Pure(s, d, c) by {
      ForgivableIsPure(s, d, errors, c);
    }
    assert Answers(s, d, errors, c, Parse(s, Prune(m, d)), locs);
    UnionGroups(s, d, errors, Parse(s, Prune(m, d)), locs);
    assert UnionVerdict(s, d, i, Parse(s, Prune(m, d)), locs);
  }

  /** Every member that finds the payload merely newer prunes it to the same
      message, if it is not valid as it stands. */
  ghost predicate AllReadAs(s: Schema, d: Json, value: Value)
    requires s.Smart?
  {
    if Valid(s, d) then Parse(s, d) == value
    else forall i :: 0 <= i < |s.options| && OnlyExtra(s.options[i].schema, d) ==>
           var pruned := Prune(s.options[i].schema, d);
           Valid(s, pruned) && Parse(s, pruned) == value
  }

  /** Whatever order the validator reports its problems in, an answer has this
      value. */
  ghost predicate AlwaysAnswers(s: Schema, d: Json, expected: Value) {
    forall errors :: Listing(s, d, errors) && Read(s, d, errors).Accepted? ==> Read(s, d, errors).value == expected
  }

  lemma ListedAgain(s: Schema, d: Json, errors: seq<Problem>, others: seq<Problem>)
    requires Listing(s, d, errors) && multiset(others) == multiset(errors)
    ensures Listing(s, d, others)
  {
    SameErrors(errors, others);
    forall i, j | 0 <= i < j < |others| ensures others[i] != others[j] {
      if others[i] == others[j] {
        Multisets.CountedTwice(others, i, j);
        CountedOnce(errors, others[i]);
      }
    }
  }

  lemma {:induction false} CountedOnce(errors: seq<Problem>, p: Problem)
    requires Distinct(errors)
    ensures multiset(errors)[p] <= 1
  {
    if errors != [] {
      CountedOnce(errors[1..], p);
      assert errors == [errors[0]] + errors[1..];
      assert forall k :: 0 <= k < |errors[1..]| ==> errors[1..][k] == errors[k + 1];
      assert errors[0] !in errors[1..];
    }
  }

  lemma VerdictsAgree(s: Schema, d: Json, errors: seq<Problem>, expected: Value, i: nat)
    requires UnionReady(s, d) && Listing(s, d, errors) && !Valid(s, d)
    requires AlwaysAnswers(s, d, expected)
    requires i < |s.options| && OnlyExtra(s.options[i].schema, d)
    ensures Valid(s, Prune(s.options[i].schema, d)) && Parse(s, Prune(s.options[i].schema, d)) == expected
  {
    MemberIsAccepted(s, d, errors, i);
    var value, dropped :| UnionVerdict(s, d, i, value, dropped) && Accepts(s, d, errors, value, dropped);
    var c :| AcceptsVia(s, d, errors, c, value, dropped);
    EveryAnswerIsRead(s, d, errors, c, value, dropped);
    ListedAgain(s, d, errors, Fronted(errors, d, c));
  }

  lemma ReadAsExpected(s: Schema, d: Json, errors: seq<Problem>, expected: Value)
    requires UnionReady(s, d) && Listing(s, d, errors) && AllReadAs(s, d, expected)
    requires Read(s, d, errors).Accepted?
    ensures Read(s, d, errors).value == expected
  {
    if !Valid(s, d) {
      ReadIsAccepted(s, d, errors);
      var i := AnswerIsVerdict(s, d, errors, Read(s, d, errors).value, Read(s, d, errors).dropped);
    }
  }

  /** The value is this one for every order of the errors exactly then. */
  lemma AlwaysReadAs(s: Schema, d: Json, expected: Value)
    requires UnionReady(s, d)
    ensures AlwaysAnswers(s, d, expected) <==> AllReadAs(s, d, expected)
  {
    ListingExists(s, d);
    var errors :| Listing(s, d, errors);
    if AlwaysAnswers(s, d, expected) {
      if Valid(s, d) {
        assert Read(s, d, errors).value == expected;
      } else {
        forall i | 0 <= i < |s.options| && OnlyExtra(s.options[i].schema, d)
          ensures Valid(s, Prune(s.options[i].schema, d)) && Parse(s, Prune(s.options[i].schema, d)) == expected
        {
          VerdictsAgree(s, d, errors, expected, i);
        }
      }
    }
    if AllReadAs(s, d, expected) {
      forall others | Listing(s, d, others) && Read(s, d, others).Accepted?
        ensures Read(s, d, others).value == expected
      {
        ReadAsExpected(s, d, others, expected);
      }
    }
  }

  /** No other member takes the payload for its own. */
  ghost predicate OnlyOwn(s: Schema, d: Json, j: nat)
    requires s.Smart?
  {
    forall i :: 0 <= i < |s.options| && i != j ==> !OnlyExtra(s.options[i].schema, d)
  }

  lemma GrownIsNewer(m: Schema, base: Json, d: Json)
    requires Flat(m) && Valid(m, base) && Grown(m, base, d)
    ensures OnlyExtra(m, d) && Prune(m, d) == base
  {
    GrownPrunesBack(m, base, d);
    forall kind, l | Reported(m, d, kind, l) ensures kind == Extra {
      GrownIsOnlyExtra(m, base, d, kind, l);
    }
  }

  lemma OwnIsReadBack(s: Schema, j: nat, base: Json, d: Json)
    requires UnionReady(s, d) && j < |s.options| && OnlyOwn(s, d, j)
    requires Valid(s.options[j].schema, base) && Grown(s.options[j].schema, base, d)
    ensures Valid(s, base) && AllReadAs(s, d, Parse(s, base))
  {
    var m := s.options[j].schema;
    GrownIsNewer(m, base, d);
    if Valid(s, d) {
      ValidMemberIsQuiet(s, d);
      PruneOfValid(m, d);
    }
  }

  lemma OwnFieldsDrop(s: Schema, d: Json, errors: seq<Problem>, j: nat)
    requires UnionReady(s, d) && Listing(s, d, errors) && !Valid(s, d) && j < |s.options| && OnlyOwn(s, d, j)
    ensures forall value, dropped :: Accepts(s, d, errors, value, dropped) ==> FieldsOf(s, d, j, dropped)
  {
    forall value, dropped | Accepts(s, d, errors, value, dropped) ensures FieldsOf(s, d, j, dropped) {
      var i := AnswerIsVerdict(s, d, errors, value, dropped);
    }
  }

  lemma NewerIsAccepted(s: Schema, d: Json, errors: seq<Problem>, j: nat)
    requires UnionReady(s, d) && Listing(s, d, errors) && j < |s.options| && OnlyExtra(s.options[j].schema, d)
    ensures Accepting(s, d, errors)
  {
    UnionExact(s, d, errors);
  }

  /** Additions to a union's message are tolerated. The value stays what it was,
      for every order of the errors, if and only if every member that finds the
      larger payload merely newer prunes it to that message. It does so if only
      the message's own member finds it so; then exactly the additions drop. */
  lemma UnionAdditionsAreTolerated(s: Schema, j: nat, base: Json, d: Json, errors: seq<Problem>)
    requires UnionReady(s, d) && Listing(s, d, errors) && j < |s.options|
    requires Valid(s.options[j].schema, base) && Grown(s.options[j].schema, base, d)
    ensures Valid(s, base) && Accepting(s, d, errors)
    ensures AlwaysAnswers(s, d, Parse(s, base)) <==> AllReadAs(s, d, Parse(s, base))
    ensures OnlyOwn(s, d, j) ==> AllReadAs(s, d, Parse(s, base))
    ensures OnlyOwn(s, d, j) && !Valid(s, d) ==>
              forall value, dropped :: Accepts(s, d, errors, value, dropped) ==> FieldsOf(s, d, j, dropped)
  {
    GrownIsNewer(s.options[j].schema, base, d);
    assert Valid(s, base);
    AlwaysReadAs(s, d, Parse(s, base));
    NewerIsAccepted(s, d, errors, j);
    if OnlyOwn(s, d, j) {
      OwnIsReadBack(s, j, base, d);
      if !Valid(s, d) {
        OwnFieldsDrop(s, d, errors, j);
      }
    }
  }

  /** A union that may be null reads everything but null as the union does. */
  lemma NullableUnion(inner: Schema, d: Json, errors: seq<Problem>, value: Value, dropped: seq<Loc>)
    requires !d.Null?
    ensures Accepts(Nullable(inner), d, errors, value, dropped) <==> Accepts(inner, d, errors, value, dropped)
  {
    forall c
      ensures AcceptsVia(Nullable(inner), d, errors, c, value, dropped)
              <==> AcceptsVia(inner, d, errors, c, value, dropped)
    {
      NullableVia(inner, d, errors, c, value, dropped);
    }
  }

  lemma NullableVia(inner: Schema, d: Json, errors: seq<Problem>, c: Candidate, value: Value, dropped: seq<Loc>)
    requires !d.Null?
    ensures AcceptsVia(Nullable(inner), d, errors, c, value, dropped)
            <==> AcceptsVia(inner, d, errors, c, value, dropped)
  {
    if Offers(errors, d, c) {
      NeverNull(d, Locs(ReportedBy(errors, d, c)), inner);
    }
  }

  lemma NeverNull(d: Json, locs: seq<Loc>, inner: Schema)
    requires !d.Null? && NonEmpty(locs)
    ensures var d' := DeleteAll(d, locs);
      && (Valid(Nullable(inner), d') <==> Valid(inner, d'))
      && (Valid(inner, d') ==> Parse(Nullable(inner), d') == Parse(inner, d'))
  {
    DeleteAllRemoves(d, locs);
  }
}
