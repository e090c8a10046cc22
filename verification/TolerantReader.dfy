/** The tolerant reader of shared/redis/client.py: errors grouped by the union
    member that reported them, one payload variant for each group of unexpected
    fields, and the first variant that validates. */
module TolerantReader {
  import opened JsonPaths
  import opened ClosedSchemas

  // -------------------------------------------------------- the tolerant reader

  /** Which union member reported an error: the first step of its location,
      unless the payload has a key of that name. */
  datatype Candidate = Payload | Named(step: Step)

  function CandidateOf(loc: Loc, d: Json): Candidate {
    if loc != [] && d.Obj? && !(loc[0].Key? && loc[0].name in d.fields) then Named(loc[0]) else Payload
  }

  function ReportedBy(errors: seq<Problem>, d: Json, c: Candidate): seq<Problem> {
    if errors == [] then []
    else
      (if CandidateOf(errors[0].loc, d) == c then [errors[0]] else []) + ReportedBy(errors[1..], d, c)
  }

  lemma ReportedByCons(error: Problem, rest: seq<Problem>, d: Json, c: Candidate)
    ensures ReportedBy([error] + rest, d, c)
            == (if CandidateOf(error.loc, d) == c then [error] else []) + ReportedBy(rest, d, c)
  {
    assert ([error] + rest)[1..] == rest;
  }

  lemma {:induction false} ReportedByConcat(a: seq<Problem>, b: seq<Problem>, d: Json, c: Candidate)
    ensures ReportedBy(a + b, d, c) == ReportedBy(a, d, c) + ReportedBy(b, d, c)
  {
    if a == [] {
      assert a + b == b;
    } else {
      ReportedByConcat(a[1..], b, d, c);
      ReportedByCons(a[0], a[1..] + b, d, c);
      ReportedByCons(a[0], a[1..], d, c);
      assert a + b == [a[0]] + (a[1..] + b) && a == [a[0]] + a[1..];
    }
  }

  lemma {:induction false} ReportedByMember(errors: seq<Problem>, d: Json, c: Candidate, p: Problem)
    ensures p in ReportedBy(errors, d, c) <==> p in errors && CandidateOf(p.loc, d) == c
  {
    if errors != [] {
      ReportedByMember(errors[1..], d, c, p);
    }
  }

  function Locs(problems: seq<Problem>): (locs: seq<Loc>)
    ensures |locs| == |problems|
    ensures forall i :: 0 <= i < |locs| ==> locs[i] == problems[i].loc
  {
    seq(|problems|, i requires 0 <= i < |problems| => problems[i].loc)
  }

  /** The errors of a candidate whose only complaint was unexpected fields. */
  predicate Forgivable(problems: seq<Problem>) {
    && problems != []
    && forall i :: 0 <= i < |problems| ==> problems[i].kind == Extra && problems[i].loc != []
  }

  predicate Located(errors: seq<Problem>) {
    forall i :: 0 <= i < |errors| ==> errors[i].loc != []
  }

  /** A payload variant to try: the payload without one candidate's unexpected
      fields, and what was dropped. */
  datatype Pruning = Pruning(data: Json, dropped: seq<Loc>)

  predicate Offers(errors: seq<Problem>, d: Json, c: Candidate) {
    && (d.Obj? || d.Arr?)
    && Located(errors)
    && Forgivable(ReportedBy(errors, d, c))
    && DroppedBy(d, Locs(ReportedBy(errors, d, c))) != []
  }

  function PruningOf(errors: seq<Problem>, d: Json, c: Candidate): Pruning
    requires Offers(errors, d, c)
  {
    var locs := Locs(ReportedBy(errors, d, c));
    Pruning(DeleteAll(d, locs), DroppedBy(d, locs))
  }

  /** The candidates in the order in which the errors first name them. */
  function Candidates(errors: seq<Problem>, d: Json): seq<Candidate> {
    if errors == [] then []
    else
      var before := Candidates(errors[..|errors| - 1], d);
      var c := CandidateOf(errors[|errors| - 1].loc, d);
      if c in before then before else before + [c]
  }

  function Variants(cs: seq<Candidate>, errors: seq<Problem>, d: Json): seq<Pruning> {
    if cs == [] then []
    else
      var last := cs[|cs| - 1];
      Variants(cs[..|cs| - 1], errors, d)
      + if Offers(errors, d, last) then [PruningOf(errors, d, last)] else []
  }

  /** `unexpected_field_prunings`. */
  function Prunings(errors: seq<Problem>, d: Json): seq<Pruning> {
    Variants(Candidates(errors, d), errors, d)
  }

  datatype Verdict = Accepted(value: Value, dropped: seq<Loc>) | Rejected

  /** The first variant that validates decides. */
  function FirstReading(s: Schema, prunings: seq<Pruning>): Verdict {
    if prunings == [] then Rejected
    else if Valid(s, prunings[0].data) then Accepted(Parse(s, prunings[0].data), prunings[0].dropped)
    else FirstReading(s, prunings[1..])
  }

  /** `validate_tolerating_additions`, given what the validator raised. */
  function Read(s: Schema, d: Json, errors: seq<Problem>): Verdict {
    if Valid(s, d) then Accepted(Parse(s, d), []) else FirstReading(s, Prunings(errors, d))
  }

  /** What the reader may answer, over all orders of the errors: strictly valid
      data untouched, or some candidate's pruning that then validates strictly. */
  ghost predicate Accepts(s: Schema, d: Json, errors: seq<Problem>, value: Value, dropped: seq<Loc>) {
    if Valid(s, d) then value == Parse(s, d) && dropped == []
    else exists c :: AcceptsVia(s, d, errors, c, value, dropped)
  }

  ghost predicate AcceptsVia(
      s: Schema, d: Json, errors: seq<Problem>, c: Candidate, value: Value, dropped: seq<Loc>)
  {
    && Offers(errors, d, c)
    && Valid(s, PruningOf(errors, d, c).data)
    && value == Parse(s, PruningOf(errors, d, c).data)
    && dropped == PruningOf(errors, d, c).dropped
  }

  /** What the candidate's variant would answer. */
  ghost predicate Answers(s: Schema, d: Json, errors: seq<Problem>, c: Candidate, value: Value, dropped: seq<Loc>) {
    var locs := Locs(ReportedBy(errors, d, c));
    && NonEmpty(locs)
    && Valid(s, DeleteAll(d, locs)) && value == Parse(s, DeleteAll(d, locs))
    && dropped == DroppedBy(d, locs)
  }

  /** A forgivable candidate of a payload that needs forgiving. */
  lemma GroupAnswers(s: Schema, d: Json, errors: seq<Problem>, c: Candidate, value: Value, dropped: seq<Loc>)
    requires !Valid(s, d) && (d.Obj? || d.Arr?) && Located(errors) && Forgivable(ReportedBy(errors, d, c))
    ensures AcceptsVia(s, d, errors, c, value, dropped) <==> Answers(s, d, errors, c, value, dropped)
  {
    var locs := Locs(ReportedBy(errors, d, c));
    if DroppedBy(d, locs) == [] {
      NothingDropped(d, locs);
    }
  }

  ghost predicate Accepting(s: Schema, d: Json, errors: seq<Problem>) {
    exists value, dropped :: Accepts(s, d, errors, value, dropped)
  }

  lemma {:induction false} CandidatesMember(errors: seq<Problem>, d: Json, c: Candidate)
    ensures c in Candidates(errors, d) <==> exists p :: p in errors && CandidateOf(p.loc, d) == c
  {
    if errors != [] {
      var n := |errors| - 1;
      CandidatesMember(errors[..n], d, c);
      assert errors == errors[..n] + [errors[n]];
      if CandidateOf(errors[n].loc, d) == c {
        assert errors[n] in errors;
      }
    }
  }

  lemma {:induction false} VariantsMember(cs: seq<Candidate>, errors: seq<Problem>, d: Json, p: Pruning)
    ensures p in Variants(cs, errors, d) <==> exists c :: c in cs && Offers(errors, d, c) && p == PruningOf(errors, d, c)
  {
    if cs != [] {
      VariantsMember(cs[..|cs| - 1], errors, d, p);
      assert cs == cs[..|cs| - 1] + [cs[|cs| - 1]];
    }
  }

  lemma {:induction false} FirstReadingIsOne(s: Schema, prunings: seq<Pruning>)
    ensures var r := FirstReading(s, prunings);
      if r.Accepted? then
        exists p :: p in prunings && Valid(s, p.data) && r == Accepted(Parse(s, p.data), p.dropped)
      else forall p :: p in prunings ==> !Valid(s, p.data)
  {
    if prunings != [] {
      FirstReadingIsOne(s, prunings[1..]);
      assert prunings == [prunings[0]] + prunings[1..];
    }
  }

  lemma ReadIsPossible(s: Schema, d: Json, errors: seq<Problem>)
    requires !Valid(s, d) && Read(s, d, errors).Accepted?
    ensures Accepts(s, d, errors, Read(s, d, errors).value, Read(s, d, errors).dropped)
  {
    var prunings, r := Prunings(errors, d), Read(s, d, errors);
    FirstReadingIsOne(s, prunings);
    var p :| p in prunings && Valid(s, p.data) && r == Accepted(Parse(s, p.data), p.dropped);
    VariantsMember(Candidates(errors, d), errors, d, p);
    var c :| Offers(errors, d, c) && p == PruningOf(errors, d, c);
    assert AcceptsVia(s, d, errors, c, r.value, r.dropped);
  }

  lemma PossibleIsRead(s: Schema, d: Json, errors: seq<Problem>, c: Candidate)
    requires !Valid(s, d) && Offers(errors, d, c) && Valid(s, PruningOf(errors, d, c).data)
    ensures Read(s, d, errors).Accepted?
  {
    var problem := ReportedBy(errors, d, c)[0];
    ReportedByMember(errors, d, c, problem);
    CandidatesMember(errors, d, c);
    VariantsMember(Candidates(errors, d), errors, d, PruningOf(errors, d, c));
    FirstReadingIsOne(s, Prunings(errors, d));
  }

  /** The reader accepts exactly if some answer is possible, and gives one. */
  lemma ReadIsAccepted(s: Schema, d: Json, errors: seq<Problem>)
    ensures Read(s, d, errors).Accepted? <==> Accepting(s, d, errors)
    ensures Read(s, d, errors).Accepted? ==>
              Accepts(s, d, errors, Read(s, d, errors).value, Read(s, d, errors).dropped)
  {
    if Valid(s, d) {
      assert Accepts(s, d, errors, Parse(s, d), []);
    } else {
      if Read(s, d, errors).Accepted? {
        ReadIsPossible(s, d, errors);
      }
      if c, value, dropped :| AcceptsVia(s, d, errors, c, value, dropped) {
        PossibleIsRead(s, d, errors, c);
      }
    }
  }

  /** The candidate's variant validates, and so would be the answer. */
  ghost predicate Passes(s: Schema, d: Json, errors: seq<Problem>, c: Candidate) {
    Offers(errors, d, c) && Valid(s, PruningOf(errors, d, c).data)
  }

  ghost function AnswerOf(s: Schema, d: Json, errors: seq<Problem>, c: Candidate): Verdict
    requires Passes(s, d, errors, c)
  {
    var p := PruningOf(errors, d, c);
    Accepted(Parse(s, p.data), p.dropped)
  }

  /** The i-th candidate is the first whose variant validates. */
  ghost predicate DecidedBy(s: Schema, d: Json, errors: seq<Problem>, i: nat) {
    var cs := Candidates(errors, d);
    i < |cs| && Passes(s, d, errors, cs[i]) && forall j :: 0 <= j < i ==> !Passes(s, d, errors, cs[j])
  }

  lemma {:induction false} FirstReadingConcat(s: Schema, a: seq<Pruning>, b: seq<Pruning>)
    ensures FirstReading(s, a + b) == if FirstReading(s, a).Accepted? then FirstReading(s, a) else FirstReading(s, b)
  {
    if a == [] {
      assert a + b == b;
    } else {
      assert (a + b)[0] == a[0] && (a + b)[1..] == a[1..] + b;
      FirstReadingConcat(s, a[1..], b);
    }
  }

  lemma LastReading(s: Schema, cs: seq<Candidate>, errors: seq<Problem>, d: Json)
    requires cs != []
    ensures
      var before, last := FirstReading(s, Variants(cs[..|cs| - 1], errors, d)), cs[|cs| - 1];
      FirstReading(s, Variants(cs, errors, d)) ==
        if before.Accepted? then before
        else if Passes(s, d, errors, last) then AnswerOf(s, d, errors, last)
        else Rejected
  {
    var last := cs[|cs| - 1];
    var own := if Offers(errors, d, last) then [PruningOf(errors, d, last)] else [];
    FirstReadingConcat(s, Variants(cs[..|cs| - 1], errors, d), own);
    assert own != [] ==> own[1..] == [];
  }

  lemma {:induction false} NoneAmong(s: Schema, cs: seq<Candidate>, errors: seq<Problem>, d: Json)
    requires forall j :: 0 <= j < |cs| ==> !Passes(s, d, errors, cs[j])
    ensures FirstReading(s, Variants(cs, errors, d)).Rejected?
    decreases |cs|
  {
    if cs != [] {
      NoneAmong(s, cs[..|cs| - 1], errors, d);
      LastReading(s, cs, errors, d);
    }
  }

  lemma {:induction false} DecidedAmong(s: Schema, cs: seq<Candidate>, errors: seq<Problem>, d: Json, i: nat)
    requires i < |cs| && Passes(s, d, errors, cs[i])
    requires forall j :: 0 <= j < i ==> !Passes(s, d, errors, cs[j])
    ensures FirstReading(s, Variants(cs, errors, d)) == AnswerOf(s, d, errors, cs[i])
    decreases |cs|
  {
    LastReading(s, cs, errors, d);
    if i < |cs| - 1 {
      DecidedAmong(s, cs[..|cs| - 1], errors, d, i);
    } else {
      NoneAmong(s, cs[..|cs| - 1], errors, d);
    }
  }

  ghost predicate FirstPassing(cs: seq<Candidate>, passes: Candidate -> bool, i: nat) {
    i < |cs| && passes(cs[i]) && forall j :: 0 <= j < i ==> !passes(cs[j])
  }

  lemma {:induction false} SomeFirst(cs: seq<Candidate>, passes: Candidate -> bool, n: nat)
    requires n <= |cs| && forall i: nat :: !FirstPassing(cs, passes, i)
    ensures forall j :: 0 <= j < n ==> !passes(cs[j])
    decreases n
  {
    if n > 0 {
      SomeFirst(cs, passes, n - 1);
      assert !FirstPassing(cs, passes, n - 1);
    }
  }

  /** The answer for one list of errors: of the candidates, in the order in
      which the errors first name them, the first whose variant validates
      decides; if there is none, the payload is rejected. */
  lemma FirstCandidateDecides(s: Schema, d: Json, errors: seq<Problem>)
    requires !Valid(s, d)
    ensures forall i: nat :: DecidedBy(s, d, errors, i) ==>
              Read(s, d, errors) == AnswerOf(s, d, errors, Candidates(errors, d)[i])
    ensures Read(s, d, errors).Accepted? <==> exists i: nat :: DecidedBy(s, d, errors, i)
  {
    var cs := Candidates(errors, d);
    forall i: nat | DecidedBy(s, d, errors, i)
      ensures Read(s, d, errors) == AnswerOf(s, d, errors, cs[i])
    {
      DecidedAmong(s, cs, errors, d, i);
    }
    if forall i: nat :: !DecidedBy(s, d, errors, i) {
      NobodyDecides(s, d, errors);
      NoneAmong(s, cs, errors, d);
    }
  }

  lemma NobodyDecides(s: Schema, d: Json, errors: seq<Problem>)
    requires forall i: nat :: !DecidedBy(s, d, errors, i)
    ensures forall j :: 0 <= j < |Candidates(errors, d)| ==> !Passes(s, d, errors, Candidates(errors, d)[j])
  {
    ghost var passes := c => Passes(s, d, errors, c);
    forall i: nat ensures !FirstPassing(Candidates(errors, d), passes, i) {
      assert !DecidedBy(s, d, errors, i);
    }
    SomeFirst(Candidates(errors, d), passes, |Candidates(errors, d)|);
  }

  // --------------------------------------------------------- orders of the errors

  function ReportedByOthers(errors: seq<Problem>, d: Json, c: Candidate): seq<Problem> {
    if errors == [] then []
    else
      (if CandidateOf(errors[0].loc, d) == c then [] else [errors[0]]) + ReportedByOthers(errors[1..], d, c)
  }

  /** The errors with those of one candidate first. */
  function Fronted(errors: seq<Problem>, d: Json, c: Candidate): seq<Problem> {
    ReportedBy(errors, d, c) + ReportedByOthers(errors, d, c)
  }

  lemma {:induction false} FrontedIsPermutation(errors: seq<Problem>, d: Json, c: Candidate)
    ensures multiset(ReportedBy(errors, d, c)) + multiset(ReportedByOthers(errors, d, c)) == multiset(errors)
  {
    if errors != [] {
      var first, rest := errors[0], errors[1..];
      FrontedIsPermutation(rest, d, c);
      assert multiset(errors) == multiset([first] + rest) by {
        assert errors == [first] + rest;
      }
      if CandidateOf(first.loc, d) == c {
        assert ReportedBy(errors, d, c) == [first] + ReportedBy(rest, d, c);
      } else {
        assert ReportedByOthers(errors, d, c) == [first] + ReportedByOthers(rest, d, c);
      }
    }
  }

  lemma {:induction false} OthersReportNothing(errors: seq<Problem>, d: Json, c: Candidate)
    ensures ReportedBy(ReportedByOthers(errors, d, c), d, c) == []
  {
    if errors != [] {
      OthersReportNothing(errors[1..], d, c);
      var head := if CandidateOf(errors[0].loc, d) == c then [] else [errors[0]];
      ReportedByConcat(head, ReportedByOthers(errors[1..], d, c), d, c);
    }
  }

  lemma {:induction false} ReportedByTwice(errors: seq<Problem>, d: Json, c: Candidate)
    ensures ReportedBy(ReportedBy(errors, d, c), d, c) == ReportedBy(errors, d, c)
  {
    if errors != [] {
      ReportedByTwice(errors[1..], d, c);
      if CandidateOf(errors[0].loc, d) == c {
        ReportedByCons(errors[0], ReportedBy(errors[1..], d, c), d, c);
      } else {
        assert ReportedBy(errors, d, c) == ReportedBy(errors[1..], d, c);
      }
    }
  }

  lemma FrontedGroup(errors: seq<Problem>, d: Json, c: Candidate)
    ensures ReportedBy(Fronted(errors, d, c), d, c) == ReportedBy(errors, d, c)
  {
    ReportedByConcat(ReportedBy(errors, d, c), ReportedByOthers(errors, d, c), d, c);
    ReportedByTwice(errors, d, c);
    OthersReportNothing(errors, d, c);
  }

  lemma {:induction false} FirstErrorsCandidate(errors: seq<Problem>, d: Json)
    requires errors != []
    ensures Candidates(errors, d) != [] && Candidates(errors, d)[0] == CandidateOf(errors[0].loc, d)
    decreases |errors|
  {
    if |errors| > 1 {
      FirstErrorsCandidate(errors[..|errors| - 1], d);
    } else {
      assert errors[..0] == [];
    }
  }

  lemma SameErrors(a: seq<Problem>, b: seq<Problem>)
    requires multiset(a) == multiset(b)
    ensures forall p :: p in a <==> p in b
    ensures Located(a) ==> Located(b)
  {
    forall p ensures p in a <==> p in b {
      assert p in a <==> p in multiset(a);
      assert p in b <==> p in multiset(b);
    }
    forall i | 0 <= i < |b| && Located(a) ensures b[i].loc != [] {
      assert b[i] in b && b[i] in a;
    }
  }

  /** Every answer that `Accepts` allows is the answer for some order of the
      same errors: the one that names its candidate first. */
  lemma EveryAnswerIsRead(
      s: Schema, d: Json, errors: seq<Problem>, c: Candidate, value: Value, dropped: seq<Loc>)
    requires !Valid(s, d) && AcceptsVia(s, d, errors, c, value, dropped)
    ensures
      var ordered := Fronted(errors, d, c);
      multiset(ordered) == multiset(errors) && Read(s, d, ordered) == Accepted(value, dropped)
  {
    var ordered := Fronted(errors, d, c);
    FrontedIsPermutation(errors, d, c);
    FrontedGroup(errors, d, c);
    SameErrors(errors, ordered);
    ReportedByMember(errors, d, c, ReportedBy(errors, d, c)[0]);
    assert ordered[0] == ReportedBy(errors, d, c)[0];
    FirstErrorsCandidate(ordered, d);
    assert Candidates(ordered, d)[0] == c && Offers(ordered, d, c);
    assert DecidedBy(s, d, ordered, 0);
    FirstCandidateDecides(s, d, ordered);
  }

  /** The validator's report: every problem once, in an order of its choosing. */
  ghost predicate Listing(s: Schema, d: Json, errors: seq<Problem>) {
    && Distinct(errors)
    && forall p :: p in errors <==> Reported(s, d, p.kind, p.loc)
  }

  lemma {:induction false} Enumerated(problems: set<Problem>)
    ensures exists errors: seq<Problem> :: Distinct(errors) && forall p :: p in errors <==> p in problems
  {
    if problems == {} {
      var none: seq<Problem> := [];
      assert Distinct(none) && forall p :: p in none <==> p in problems;
    } else {
      var first :| first in problems;
      Enumerated(problems - {first});
      var rest: seq<Problem> :| Distinct(rest) && forall p :: p in rest <==> p in problems - {first};
      var errors := [first] + rest;
      assert forall i :: 0 <= i < |rest| ==> rest[i] in rest;
      assert Distinct(errors) && forall p :: p in errors <==> p in problems;
    }
  }

  /** There is always such a report: every schema finds finitely many problems
      in every payload. */
  lemma ListingExists(s: Schema, d: Json)
    ensures exists errors :: Listing(s, d, errors)
  {
    Enumerated(Problems(s, d));
    var errors: seq<Problem> :| Distinct(errors) && forall p :: p in errors <==> p in Problems(s, d);
    forall p ensures p in errors <==> Reported(s, d, p.kind, p.loc) {
      ProblemsExact(s, d, p);
    }
    assert Listing(s, d, errors);
  }

  lemma {:induction false} ReportedByDistinct(errors: seq<Problem>, d: Json, c: Candidate)
    requires Distinct(errors)
    ensures Distinct(ReportedBy(errors, d, c))
  {
    if errors != [] {
      var tail := errors[1..];
      ReportedByDistinct(tail, d, c);
      ReportedByMember(tail, d, c, errors[0]);
      assert errors[0] !in tail;
    }
  }

  lemma ExtraLocsDistinct(problems: seq<Problem>)
    requires Distinct(problems) && forall i :: 0 <= i < |problems| ==> problems[i].kind == Extra
    ensures Distinct(Locs(problems))
  {
    var locs := Locs(problems);
    forall i, j | 0 <= i < j < |locs| ensures locs[i] != locs[j] {
      assert problems[i] != problems[j];
    }
  }

  lemma InLocs(problems: seq<Problem>, l: Loc)
    ensures l in Locs(problems) <==> exists p :: p in problems && p.loc == l
  {
    forall p | p in problems && p.loc == l ensures l in Locs(problems) {
      var i :| 0 <= i < |problems| && problems[i] == p;
      assert Locs(problems)[i] == l;
    }
    if l in Locs(problems) {
      var i :| 0 <= i < |problems| && Locs(problems)[i] == l;
      assert problems[i] in problems;
    }
  }

  ghost predicate AllExtra(s: Schema, d: Json, locs: seq<Loc>) {
    forall l :: l in locs ==> Reported(s, d, Extra, l)
  }

  /** A forgivable candidate's locations are distinct reported extras. */
  lemma CandidateLocs(s: Schema, d: Json, errors: seq<Problem>, c: Candidate)
    requires Listing(s, d, errors) && Forgivable(ReportedBy(errors, d, c))
    ensures
      var locs := Locs(ReportedBy(errors, d, c));
      && NonEmpty(locs) && Distinct(locs) && AllExtra(s, d, locs)
      && forall l :: l in locs <==> CandidateOf(l, d) == c && Reported(s, d, Extra, l)
  {
    var problems := ReportedBy(errors, d, c);
    var locs := Locs(problems);
    ReportedByDistinct(errors, d, c);
    ExtraLocsDistinct(problems);
    forall l ensures l in locs <==> CandidateOf(l, d) == c && Reported(s, d, Extra, l) {
      InLocs(problems, l);
      forall p ensures p in problems <==> p in errors && CandidateOf(p.loc, d) == c {
        ReportedByMember(errors, d, c, p);
      }
      if CandidateOf(l, d) == c && Reported(s, d, Extra, l) {
        assert Problem(Extra, l) in errors;
      }
    }
  }

  // -------------------------------------------------------------------- the code

  lemma DeleteNext(d: Json, locs: seq<Loc>, i: nat)
    requires NonEmpty(locs) && i < |locs|
    ensures DeleteAll(d, locs[i..]) == DeleteAll(DeleteOne(d, locs[i]), locs[i + 1..])
    ensures DroppedBy(d, locs[i..])
            == (if Hits(d, locs[i]) then [locs[i]] else []) + DroppedBy(DeleteOne(d, locs[i]), locs[i + 1..])
  {
    assert locs[i..][0] == locs[i] && locs[i..][1..] == locs[i + 1..];
  }

  /** The keys named by `locs`, removed one after the other. */
  method DeleteAt(data: Json, locs: seq<Loc>) returns (pruned: Json, dropped: seq<Loc>)
    requires NonEmpty(locs)
    ensures pruned == DeleteAll(data, locs) && dropped == DroppedBy(data, locs)
  {
    pruned, dropped := data, [];
    assert locs[0..] == locs;
    for i := 0 to |locs|
      invariant DeleteAll(data, locs) == DeleteAll(pruned, locs[i..])
      invariant DroppedBy(data, locs) == dropped + DroppedBy(pruned, locs[i..])
    {
      DeleteNext(pruned, locs, i);
      var loc := locs[i];
      var hit := Hits(pruned, loc);
      pruned := DeleteOne(pruned, loc);
      if hit {
        dropped := dropped + [loc];
      }
    }
    assert locs[|locs|..] == [];
  }

  /** The error groups of the `by_candidate` dict, in insertion order. */
  ghost predicate GroupedBy(order: seq<Candidate>, groups: map<Candidate, seq<Problem>>, errors: seq<Problem>, d: Json) {
    && order == Candidates(errors, d)
    && (forall c :: c in order <==> c in groups)
    && (forall c :: c in groups ==> groups[c] == ReportedBy(errors, d, c))
  }

  /** The errors grouped by the candidate that reported them; not if one of
      them has no location. */
  method GroupByCandidate(data: Json, errors: seq<Problem>)
    returns (ok: bool, order: seq<Candidate>, groups: map<Candidate, seq<Problem>>)
    ensures ok == Located(errors)
    ensures ok ==> GroupedBy(order, groups, errors, data)
  {
    order, groups := [], map[];
    for i := 0 to |errors|
      invariant Located(errors[..i])
      invariant GroupedBy(order, groups, errors[..i], data)
    {
      var error := errors[i];
      if error.loc == [] {
        return false, order, groups;
      }
      var c := CandidateOf(error.loc, data);
      if c in groups {
        GroupExtended(order, groups, errors[..i], data, error);
        groups := groups[c := groups[c] + [error]];
      } else {
        GroupOpened(order, groups, errors[..i], data, error);
        order := order + [c];
        groups := groups[c := [error]];
      }
      assert errors[..i + 1] == errors[..i] + [error];
    }
    assert errors[..|errors|] == errors;
    ok := true;
  }

  lemma OneMore(errors: seq<Problem>, d: Json, error: Problem, c: Candidate)
    ensures ReportedBy(errors + [error], d, c)
            == ReportedBy(errors, d, c) + if CandidateOf(error.loc, d) == c then [error] else []
  {
    ReportedByConcat(errors, [error], d, c);
    assert [error][1..] == [];
  }

  lemma OneMoreCandidate(errors: seq<Problem>, d: Json, error: Problem)
    ensures var c := CandidateOf(error.loc, d);
      Candidates(errors + [error], d) == Candidates(errors, d) + if c in Candidates(errors, d) then [] else [c]
  {
    assert (errors + [error])[..|errors|] == errors;
  }

  lemma GroupExtended(order: seq<Candidate>, groups: map<Candidate, seq<Problem>>, errors: seq<Problem>,
                      d: Json, error: Problem)
    requires GroupedBy(order, groups, errors, d) && CandidateOf(error.loc, d) in groups
    ensures
      var c := CandidateOf(error.loc, d);
      GroupedBy(order, groups[c := groups[c] + [error]], errors + [error], d)
  {
    OneMoreCandidate(errors, d, error);
    forall other { OneMore(errors, d, error, other); }
  }

  lemma GroupOpened(order: seq<Candidate>, groups: map<Candidate, seq<Problem>>, errors: seq<Problem>,
                    d: Json, error: Problem)
    requires GroupedBy(order, groups, errors, d) && CandidateOf(error.loc, d) !in groups
    ensures
      var c := CandidateOf(error.loc, d);
      GroupedBy(order + [c], groups[c := [error]], errors + [error], d)
  {
    var c := CandidateOf(error.loc, d);
    OneMoreCandidate(errors, d, error);
    assert c !in Candidates(errors, d);
    NotYetReported(errors, d, c);
    forall other { OneMore(errors, d, error, other); }
  }

  lemma NotYetReported(errors: seq<Problem>, d: Json, c: Candidate)
    requires c !in Candidates(errors, d)
    ensures ReportedBy(errors, d, c) == []
  {
    if ReportedBy(errors, d, c) != [] {
      var p := ReportedBy(errors, d, c)[0];
      ReportedByMember(errors, d, c, p);
      CandidatesMember(errors, d, c);
    }
  }

  lemma VariantsNext(cs: seq<Candidate>, i: nat, errors: seq<Problem>, d: Json)
    requires i < |cs|
    ensures Variants(cs[..i + 1], errors, d)
            == Variants(cs[..i], errors, d) + if Offers(errors, d, cs[i]) then [PruningOf(errors, d, cs[i])] else []
  {
    assert cs[..i + 1][..i] == cs[..i];
  }

  lemma {:induction false} NoVariants(cs: seq<Candidate>, errors: seq<Problem>, d: Json)
    requires !Located(errors) || !(d.Obj? || d.Arr?)
    ensures Variants(cs, errors, d) == []
  {
    if cs != [] {
      NoVariants(cs[..|cs| - 1], errors, d);
    }
  }

  /** The variants, in the order in which the errors first name their candidates. */
  method UnexpectedFieldPrunings(data: Json, errors: seq<Problem>) returns (prunings: seq<Pruning>)
    ensures prunings == Prunings(errors, data)
  {
    prunings := [];
    if errors == [] || !(data.Obj? || data.Arr?) {
      NoVariantsAtAll(errors, data);
      return;
    }
    var ok, order, groups := GroupByCandidate(data, errors);
    if !ok {
      NoVariantsAtAll(errors, data);
      return;
    }
    prunings := PruneCandidates(data, errors, order, groups);
  }

  /** The loop over the groups. */
  method PruneCandidates(data: Json, errors: seq<Problem>, order: seq<Candidate>, groups: map<Candidate, seq<Problem>>)
    returns (prunings: seq<Pruning>)
    requires (data.Obj? || data.Arr?) && Located(errors)
    requires forall c :: c in order ==> c in groups && groups[c] == ReportedBy(errors, data, c)
    ensures prunings == Variants(order, errors, data)
  {
    prunings := [];
    for i := 0 to |order|
      invariant prunings == Variants(order[..i], errors, data)
    {
      VariantsNext(order, i, errors, data);
      var variant := PruneCandidate(data, errors, order[i], groups[order[i]]);
      prunings := prunings + variant;
    }
    assert order[..|order|] == order;
  }

  /** One candidate's variant, if it has one. */
  method PruneCandidate(data: Json, errors: seq<Problem>, c: Candidate, reported: seq<Problem>)
    returns (variant: seq<Pruning>)
    requires (data.Obj? || data.Arr?) && Located(errors) && reported == ReportedBy(errors, data, c)
    ensures variant == if Offers(errors, data, c) then [PruningOf(errors, data, c)] else []
  {
    if !Forgivable(reported) {
      return [];
    }
    var pruned, dropped := DeleteAt(data, Locs(reported));
    return if dropped != [] then [Pruning(pruned, dropped)] else [];
  }

  lemma NoVariantsAtAll(errors: seq<Problem>, d: Json)
    requires errors == [] || !Located(errors) || !(d.Obj? || d.Arr?)
    ensures Prunings(errors, d) == []
  {
    if errors != [] {
      NoVariants(Candidates(errors, d), errors, d);
    }
  }

  /** `errors` is what the validator raised for `data`. */
  method ValidateToleratingAdditions(s: Schema, data: Json, errors: seq<Problem>) returns (r: Verdict)
    ensures r == Read(s, data, errors)
    ensures r.Accepted? ==> Accepts(s, data, errors, r.value, r.dropped)
    ensures r.Rejected? ==> !Accepting(s, data, errors)
  {
    ReadIsAccepted(s, data, errors);
    if Valid(s, data) {
      return Accepted(Parse(s, data), []);
    }
    var prunings := UnexpectedFieldPrunings(data, errors);
    assert prunings[0..] == prunings;
    for i := 0 to |prunings|
      invariant FirstReading(s, prunings) == FirstReading(s, prunings[i..])
    {
      assert prunings[i..][0] == prunings[i] && prunings[i..][1..] == prunings[i + 1..];
      if Valid(s, prunings[i].data) {
        return Accepted(Parse(s, prunings[i].data), prunings[i].dropped);
      }
    }
    assert prunings[|prunings|..] == [];
    return Rejected;
  }
}
