/** Where tolerance stops or goes too far: messages on which the tolerant reader
    does not do what a newer publisher would wish. */
module ToleranceLimits {
  import opened JsonPaths
  import opened ClosedSchemas
  import opened TolerantReader
  import opened TolerantValidation

  const NUM := Field(Scalar(AnyNum), true)
  const MAYBE_NUM := Field(Scalar(AnyNum), false)

  /** Without that proviso an added field can turn one message into another:
      here field "y" is unknown to the message sent, but not to its neighbour. */
  lemma AdditionCanChangeTheMessage()
    ensures
      var a, b := Model(map["x" := NUM]), Model(map["x" := NUM, "y" := NUM]);
      var s := Smart([Member("A", a), Member("B", b)]);
      var base, d := Obj(map["x" := Num(1)]), Obj(map["x" := Num(1), "y" := Num(2)]);
      && Valid(a, base) && Grown(a, base, d)
      && Valid(s, base) && Parse(s, base).member == "A"
      && Valid(s, d) && Parse(s, d).member == "B"
  {
    var a, b := Model(map["x" := NUM]), Model(map["x" := NUM, "y" := NUM]);
    var options := [Member("A", a), Member("B", b)];
    var base, d := Obj(map["x" := Num(1)]), Obj(map["x" := Num(1), "y" := Num(2)]);
    assert options[0].schema == a && options[1].schema == b;
    assert Valid(a, base) && Grown(a, base, d) && Valid(b, d);
    assert !Valid(a, d) by {
      assert "y" in d.fields && "y" !in a.fields;
    }
    FirstOfTwo(options, base);
    FirstOfTwo(options, d);
  }

  lemma FirstOfTwo(options: seq<Member>, d: Json)
    requires |options| == 2 && (Valid(options[0].schema, d) || Valid(options[1].schema, d))
    ensures Valid(Smart(options), d)
    ensures Parse(Smart(options), d).Chosen?
    ensures Parse(Smart(options), d).member
            == if Valid(options[0].schema, d) then options[0].name else options[1].name
  {
    var i := FirstValid(options, d);
    assert Parse(Smart(options), d) == Chosen(options[i].name, Parse(options[i].schema, d));
  }

  /** A payload key spelled like a union member hides that member's errors: an
      unknown field called "A" is not forgiven in a message of model A. */
  lemma FieldNamedLikeItsModel(errors: seq<Problem>)
    requires
      var s := Smart([Member("A", Model(map["x" := NUM]))]);
      Listing(s, Obj(map["x" := Num(1), "A" := Num(2)]), errors)
    ensures
      var m := Model(map["x" := NUM]);
      var s, d := Smart([Member("A", m)]), Obj(map["x" := Num(1), "A" := Num(2)]);
      OnlyExtra(m, d) && !Accepting(s, d, errors)
  {
    var m := Model(map["x" := NUM]);
    var s, d := Smart([Member("A", m)]), Obj(map["x" := Num(1), "A" := Num(2)]);
    assert "A" in d.fields && "A" !in m.fields;
    assert s.options[0].schema == m && !Valid(m, d);
    forall p | p in errors ensures p == Problem(Extra, [Key("A"), Key("A")]) {
      assert Reported(m, d, p.kind, p.loc[1..]);
      assert p.loc == [p.loc[0], p.loc[1]];
    }
    forall c ensures !Offers(errors, d, c) {
      var problems := ReportedBy(errors, d, c);
      if Forgivable(problems) {
        var locs := Locs(problems);
        forall i | 0 <= i < |locs| ensures locs[i] == [Key("A"), Key("A")] {
          ReportedByMember(errors, d, c, problems[i]);
          assert problems[i] in problems;
        }
        MissesAll(d, locs, [Key("A"), Key("A")]);
      }
    }
  }

  lemma {:induction false} MissesAll(d: Json, locs: seq<Loc>, loc: Loc)
    requires NonEmpty(locs) && loc != [] && !Hits(d, loc) && DeleteOne(d, loc) == d
    requires forall i :: 0 <= i < |locs| ==> locs[i] == loc
    ensures DroppedBy(d, locs) == []
    decreases |locs|
  {
    if locs != [] {
      MissesAll(d, locs[1..], loc);
    }
  }

  const TAG_MODEL: Schema := Model(map["type" := Field(Scalar(AnyStr), true)])
  const TAGGED: Schema := Tagged("type", map["a" := TAG_MODEL])

  /** A message tagged "a" with the unknown field "a". */
  const LIKE_TAG: Json := Obj(map["type" := Str("a"), "a" := Num(1)])

  /** A field spelled like the tag of a discriminated union is not forgiven: it
      is all that is wrong with this message, and the message is rejected. */
  lemma FieldNamedLikeItsTag(errors: seq<Problem>)
    requires Listing(TAGGED, LIKE_TAG, errors)
    ensures OnlyExtra(TAGGED, LIKE_TAG) && Reported(TAGGED, LIKE_TAG, Extra, [Key("a"), Key("a")])
    ensures !Lands(TAGGED, LIKE_TAG, [Key("a"), Key("a")])
    ensures !Accepting(TAGGED, LIKE_TAG, errors)
  {
    LikeTagFacts();
    FlatExact(TAGGED, LIKE_TAG, errors);
  }

  lemma LikeTagFacts()
    ensures Flat(TAGGED) && WellFormed(TAGGED)
    ensures OnlyExtra(TAGGED, LIKE_TAG) && Reported(TAGGED, LIKE_TAG, Extra, [Key("a"), Key("a")])
    ensures !Lands(TAGGED, LIKE_TAG, [Key("a"), Key("a")])
  {
    var d, loc := LIKE_TAG, [Key("a"), Key("a")];
    assert d.fields["type"] == Str("a") && d.fields["a"] == Num(1);
    assert HasTag(TAGGED, d) && Tag(TAGGED, d) == "a";
    assert loc[1..] == [Key("a")] && "a" !in TAG_MODEL.fields;
    assert Reported(TAG_MODEL, d, Extra, [Key("a")]);
    assert Leads(d, loc[0]) && Child(d, loc[0]) == Num(1);
    assert Landing(Num(1), [Key("a")]) == None;
    forall kind, l: Loc | Reported(TAGGED, d, kind, l) ensures kind == Extra {
      assert Reported(TAG_MODEL, d, kind, l[1..]);
    }
  }

  /** A message with one field that holds either of two models. */
  function Holder(a: Schema, b: Schema): Schema {
    Model(map["u" := Field(Smart([Member("A", a), Member("B", b)]), true)])
  }

  function Held(inner: Json): Json {
    Obj(map["u" := inner])
  }

  lemma HolderIsWellFormed(a: Schema, b: Schema)
    requires WellFormed(a) && WellFormed(b)
    ensures WellFormed(Holder(a, b)) && !UnionTop(Holder(a, b))
  {
    var union := Smart([Member("A", a), Member("B", b)]);
    assert union.options[0].schema == a && union.options[1].schema == b;
    assert "A" != "B" && WellFormed(union);
  }

  lemma HolderValid(a: Schema, b: Schema, inner: Json)
    ensures Valid(Holder(a, b), Held(inner)) <==> Valid(a, inner) || Valid(b, inner)
  {
    var options := [Member("A", a), Member("B", b)];
    assert options[0].schema == a && options[1].schema == b;
    assert Valid(Smart(options), inner) <==> Valid(a, inner) || Valid(b, inner);
    var s, d := Holder(a, b), Held(inner);
    assert d.fields["u"] == inner && s.fields["u"].schema == Smart(options);
    assert Valid(s, d) <==> Valid(Smart(options), inner);
  }

  /** The location of something a member says of the held field. */
  function Under(member: string, l: Loc): (loc: Loc)
    ensures |loc| == |l| + 2 && loc[0] == Key("u") && loc[1] == Key(member)
    ensures loc[1..][0] == Key(member) && loc[1..][1..] == l
  {
    var loc := [Key("u"), Key(member)] + l;
    assert loc[1..][1..] == l;
    loc
  }

  lemma HolderReports(a: Schema, b: Schema, inner: Json, kind: Kind, loc: Loc)
    requires !Valid(a, inner) && !Valid(b, inner)
    ensures Reported(Holder(a, b), Held(inner), kind, loc) <==>
              exists l :: (loc == Under("A", l) && Reported(a, inner, kind, l))
                       || (loc == Under("B", l) && Reported(b, inner, kind, l))
  {
    HolderForwards(a, b, inner, kind, loc);
    EitherReports(a, b, inner, kind, if loc == [] then [] else loc[1..]);
    if |loc| >= 2 && loc[0] == Key("u") {
      var l := loc[1..][1..];
      assert loc == [loc[0], loc[1]] + l;
      assert loc[1] == Key("A") ==> loc == Under("A", l);
      assert loc[1] == Key("B") ==> loc == Under("B", l);
    }
  }

  lemma HolderForwards(a: Schema, b: Schema, inner: Json, kind: Kind, loc: Loc)
    ensures Reported(Holder(a, b), Held(inner), kind, loc) <==>
              && loc != [] && loc[0] == Key("u")
              && Reported(Smart([Member("A", a), Member("B", b)]), inner, kind, loc[1..])
  {
    var s, d := Holder(a, b), Held(inner);
    assert d.fields["u"] == inner && s.fields["u"].schema == Smart([Member("A", a), Member("B", b)]);
    assert s.fields.Keys == {"u"} && d.fields.Keys == {"u"};
  }

  lemma EitherReports(a: Schema, b: Schema, d: Json, kind: Kind, loc: Loc)
    requires !Valid(a, d) && !Valid(b, d)
    ensures Reported(Smart([Member("A", a), Member("B", b)]), d, kind, loc) <==>
              loc != [] && ((loc[0] == Key("A") && Reported(a, d, kind, loc[1..]))
                            || (loc[0] == Key("B") && Reported(b, d, kind, loc[1..])))
  {
    var options := [Member("A", a), Member("B", b)];
    assert options[0] == Member("A", a) && options[1] == Member("B", b);
    assert !Valid(Smart(options), d);
  }

  /** Each member has one complaint, an unexpected field. */
  ghost predicate OneExtra(s: Schema, d: Json, l: Loc) {
    forall kind, loc :: Reported(s, d, kind, loc) <==> kind == Extra && loc == l
  }

  function HolderErrors(l: Loc, l': Loc): seq<Problem> {
    [Problem(Extra, Under("A", l)), Problem(Extra, Under("B", l'))]
  }

  lemma HolderListing(a: Schema, b: Schema, inner: Json, l: Loc, l': Loc)
    requires !Valid(a, inner) && !Valid(b, inner) && OneExtra(a, inner, l) && OneExtra(b, inner, l')
    ensures Listing(Holder(a, b), Held(inner), HolderErrors(l, l'))
    ensures OnlyExtra(Holder(a, b), Held(inner))
  {
    forall kind, loc
      ensures Reported(Holder(a, b), Held(inner), kind, loc) <==> Problem(kind, loc) in HolderErrors(l, l')
    {
      HolderReports(a, b, inner, kind, loc);
    }
    assert Under("A", l)[1] != Under("B", l')[1];
  }

  /** What the reader makes of such a message. */
  lemma HolderRead(a: Schema, b: Schema, inner: Json, l: Loc, l': Loc)
    requires WellFormed(a) && WellFormed(b) && !Valid(a, inner) && !Valid(b, inner)
    requires OneExtra(a, inner, l) && OneExtra(b, inner, l')
    ensures
      var left := DeleteOne(DeleteOne(inner, [Key("A")] + l), [Key("B")] + l');
      var s, d, errors := Holder(a, b), Held(inner), HolderErrors(l, l');
      && NonEmpty(Locs(errors)) && DeleteAll(d, Locs(errors)) == Held(left)
      && (Accepting(s, d, errors) <==> Valid(s, Held(left)))
      && (forall value, dropped :: Accepts(s, d, errors, value, dropped) ==>
            Valid(s, Held(left)) && value == Parse(s, Held(left)))
  {
    var s, d, errors := Holder(a, b), Held(inner), HolderErrors(l, l');
    var one := DeleteOne(inner, [Key("A")] + l);
    var left := DeleteOne(one, [Key("B")] + l');
    HolderIsWellFormed(a, b);
    HolderListing(a, b, inner, l, l');
    HolderValid(a, b, inner);
    var locs := Locs(errors);
    assert locs[0][1..] == [Key("A")] + l && locs[1][1..] == [Key("B")] + l';
    assert DeleteOne(d, locs[0]) == Held(one) by {
      assert d.fields["u" := one] == Held(one).fields;
    }
    assert DeleteOne(Held(one), locs[1]) == Held(left) by {
      assert Held(one).fields["u" := left] == Held(left).fields;
    }
    assert locs[1..][0] == locs[1] && locs[1..][1..] == [];
    assert DeleteAll(d, locs) == DeleteAll(Held(one), locs[1..]);
    assert DeleteAll(Held(one), locs[1..]) == DeleteAll(Held(left), []);
    forall value, dropped
      ensures Accepts(s, d, errors, value, dropped) <==>
                Valid(s, Held(left)) && value == Parse(s, Held(left)) && dropped == DroppedBy(d, locs)
    {
      NestedExact(s, d, errors, value, dropped);
    }
    if Valid(s, Held(left)) {
      assert Accepts(s, d, errors, Parse(s, Held(left)), DroppedBy(d, locs));
    }
  }

  const A_MODEL: Schema := Model(map["x" := NUM])
  const B_MODEL: Schema := Model(map["y" := NUM])

  /** A message of model A with the unknown field "z". */
  const NEWER_A: Json := Obj(map["x" := Num(1), "z" := Num(2)])

  lemma NewerAFacts()
    ensures WellFormed(A_MODEL) && WellFormed(B_MODEL)
    ensures OneExtra(A_MODEL, NEWER_A, [Key("z")])
    ensures Reported(B_MODEL, NEWER_A, Missing, [Key("y")])
    ensures !Valid(A_MODEL, NEWER_A) && !Valid(B_MODEL, NEWER_A)
  {
    var a, b, d := Model(map["x" := NUM]), Model(map["y" := NUM]), Obj(map["x" := Num(1), "z" := Num(2)]);
    assert A_MODEL == a && B_MODEL == b && NEWER_A == d;
    assert "z" in d.fields && "z" !in a.fields && "z" !in b.fields;
    forall kind, loc: Loc ensures Reported(a, d, kind, loc) <==> kind == Extra && loc == [Key("z")] {
      if |loc| == 1 {
        assert loc == [loc[0]];
      }
    }
  }

  /** A nested union in which the members that do not apply miss a field is
      strict: this message is merely newer for A, and rejected because of B. */
  lemma NestedUnionIsStrict(errors: seq<Problem>)
    requires Listing(Holder(A_MODEL, B_MODEL), Held(NEWER_A), errors)
    ensures OnlyExtra(A_MODEL, NEWER_A)
    ensures !Accepting(Holder(A_MODEL, B_MODEL), Held(NEWER_A), errors)
  {
    NewerAFacts();
    HolderIsWellFormed(A_MODEL, B_MODEL);
    HolderReports(A_MODEL, B_MODEL, NEWER_A, Missing, Under("B", [Key("y")]));
    WrongIsStillRejected(Holder(A_MODEL, B_MODEL), Held(NEWER_A), errors, Missing, Under("B", [Key("y")]));
  }

  const MAYBE_X: Schema := Model(map["x" := MAYBE_NUM])
  const MAYBE_Y: Schema := Model(map["y" := MAYBE_NUM])

  /** Each field is known to one of the two models and unexpected to the other. */
  const X_AND_Y: Json := Obj(map["x" := Num(1), "y" := Num(2)])

  lemma XAndYFacts()
    ensures WellFormed(MAYBE_X) && WellFormed(MAYBE_Y) && !Valid(MAYBE_X, X_AND_Y) && !Valid(MAYBE_Y, X_AND_Y)
    ensures OneExtra(MAYBE_X, X_AND_Y, [Key("y")]) && OneExtra(MAYBE_Y, X_AND_Y, [Key("x")])
    ensures Valid(MAYBE_X, Obj(map[]))
    ensures DeleteOne(DeleteOne(X_AND_Y, [Key("A"), Key("y")]), [Key("B"), Key("x")]) == Obj(map[])
  {
    var a, b, d := Model(map["x" := MAYBE_NUM]), Model(map["y" := MAYBE_NUM]), Obj(map["x" := Num(1), "y" := Num(2)]);
    assert MAYBE_X == a && MAYBE_Y == b && X_AND_Y == d;
    assert "y" in d.fields && "y" !in a.fields && "x" in d.fields && "x" !in b.fields;
    forall kind, loc: Loc
      ensures Reported(a, d, kind, loc) <==> kind == Extra && loc == [Key("y")]
      ensures Reported(b, d, kind, loc) <==> kind == Extra && loc == [Key("x")]
    {
      if |loc| == 1 {
        assert loc == [loc[0]];
      }
    }
    var one := Obj(map["x" := Num(1)]);
    assert [Key("A"), Key("y")][1..] == [Key("y")] && [Key("B"), Key("x")][1..] == [Key("x")];
    assert DeleteOne(d, [Key("A"), Key("y")]) == DeleteOne(d, [Key("y")]);
    assert DeleteOne(d, [Key("y")]) == one by {
      assert d.fields - {"y"} == one.fields;
    }
    assert DeleteOne(one, [Key("B"), Key("x")]) == DeleteOne(one, [Key("x")]);
    assert one.fields - {"x"} == map[];
  }

  /** In a nested union all members' complaints are forgiven together, so fields
      that a member knows are deleted: here both, and the message is accepted
      empty. */
  lemma KnownFieldsAreLost()
    ensures
      var s, d, errors := Holder(MAYBE_X, MAYBE_Y), Held(X_AND_Y), HolderErrors([Key("y")], [Key("x")]);
      && Listing(s, d, errors)
      && Valid(s, Held(Obj(map[])))
      && Read(s, d, errors).Accepted? && Read(s, d, errors).value == Parse(s, Held(Obj(map[])))
  {
    var s, d, errors := Holder(MAYBE_X, MAYBE_Y), Held(X_AND_Y), HolderErrors([Key("y")], [Key("x")]);
    XAndYFacts();
    HolderListing(MAYBE_X, MAYBE_Y, X_AND_Y, [Key("y")], [Key("x")]);
    assert [Key("A")] + [Key("y")] == [Key("A"), Key("y")] && [Key("B")] + [Key("x")] == [Key("B"), Key("x")];
    HolderRead(MAYBE_X, MAYBE_Y, X_AND_Y, [Key("y")], [Key("x")]);
    HolderValid(MAYBE_X, MAYBE_Y, Obj(map[]));
    ReadIsAccepted(s, d, errors);
  }

  const SHELF: Schema := Model(map["A" := Field(Dict(Scalar(AnyNum)), true)])

  /** The valid entry "z" of dictionary "A", and an unknown field "z" beside it. */
  const STOCK: Json := Obj(map["A" := Obj(map["z" := Num(5)]), "z" := Num(1)])
  const EMPTY_STOCK: Json := Obj(map["A" := Obj(map[])])

  lemma StockFacts()
    ensures WellFormed(SHELF) && !Valid(SHELF, STOCK) && OneExtra(SHELF, STOCK, [Key("z")])
    ensures Valid(SHELF, EMPTY_STOCK)
  {
    var a := Model(map["A" := Field(Dict(Scalar(AnyNum)), true)]);
    var inner := Obj(map["z" := Num(5)]);
    var d := Obj(map["A" := inner, "z" := Num(1)]);
    assert SHELF == a && STOCK == d;
    assert "z" in d.fields && "z" !in a.fields && d.fields["A"] == inner;
    forall kind, loc: Loc ensures !Reported(Dict(Scalar(AnyNum)), inner, kind, loc) {
      assert Valid(Dict(Scalar(AnyNum)), inner);
      ValidIsQuiet(Dict(Scalar(AnyNum)), inner, kind, loc);
    }
    forall kind, loc: Loc ensures Reported(a, d, kind, loc) <==> kind == Extra && loc == [Key("z")] {
      if |loc| == 1 {
        assert loc == [loc[0]];
      }
    }
  }

  lemma StockDeletions()
    ensures DeleteOne(DeleteOne(STOCK, [Key("A")] + [Key("z")]), [Key("B")] + [Key("z")]) == EMPTY_STOCK
  {
    var inner, one := Obj(map["z" := Num(5)]), Obj(map["A" := Obj(map[]), "z" := Num(1)]);
    assert STOCK.fields["A"] == inner;
    assert ([Key("A")] + [Key("z")])[1..] == [Key("z")] && ([Key("B")] + [Key("z")])[1..] == [Key("z")];
    assert DeleteOne(inner, [Key("z")]) == Obj(map[]) by {
      assert inner.fields - {"z"} == map[];
    }
    assert DeleteOne(STOCK, [Key("A")] + [Key("z")]) == one by {
      assert STOCK.fields["A" := Obj(map[])] == one.fields;
    }
    assert DeleteOne(one, [Key("B")] + [Key("z")]) == DeleteOne(one, [Key("z")]);
    assert one.fields - {"z"} == EMPTY_STOCK.fields;
  }

  /** A union member's name that is a key where the union stands leads astray:
      a valid entry that nobody reported is deleted, and the message accepted
      without it. The locations are not true to their places. */
  lemma KnownEntryIsDeleted()
    ensures
      var s, d, errors := Holder(SHELF, SHELF), Held(STOCK), HolderErrors([Key("z")], [Key("z")]);
      && Listing(s, d, errors)
      && Valid(s, Held(EMPTY_STOCK))
      && Read(s, d, errors).Accepted? && Read(s, d, errors).value == Parse(s, Held(EMPTY_STOCK))
      && NonEmpty(Locs(errors)) && !TrueToPlace(s, d, Locs(errors))
  {
    var s, d, errors := Holder(SHELF, SHELF), Held(STOCK), HolderErrors([Key("z")], [Key("z")]);
    StockFacts();
    StockDeletions();
    HolderIsWellFormed(SHELF, SHELF);
    HolderListing(SHELF, SHELF, STOCK, [Key("z")], [Key("z")]);
    HolderRead(SHELF, SHELF, STOCK, [Key("z")], [Key("z")]);
    HolderValid(SHELF, SHELF, EMPTY_STOCK);
    ReadIsAccepted(s, d, errors);
    StockPlaces();
    forall l | l in Locs(errors) ensures Reported(s, d, Extra, l) {
      InLocs(errors, l);
    }
    DeletionIsExact(s, d, Locs(errors));
  }

  /** The true place of both locations is the unknown field. */
  lemma StockPlaces()
    ensures
      var s, d, locs := Holder(SHELF, SHELF), Held(STOCK), Locs(HolderErrors([Key("z")], [Key("z")]));
      Without(d, PlacesOf(s, d, locs)) != Held(EMPTY_STOCK)
  {
    var s, d, locs := Holder(SHELF, SHELF), Held(STOCK), Locs(HolderErrors([Key("z")], [Key("z")]));
    PlaceUnder("A", 0);
    PlaceUnder("B", 1);
    var place := [Key("u"), Key("z")];
    forall p ensures p in PlacesOf(s, d, locs) <==> p == place {
      assert locs[0] in locs && forall l :: l in locs ==> l == locs[0] || l == locs[1];
    }
    assert PlacesOf(s, d, locs) == {place};
    var entry := [Key("u"), Key("A"), Key("z")];
    assert entry[1..] == [Key("A"), Key("z")] && entry[1..][1..] == [Key("z")];
    assert Present(STOCK.fields["A"], [Key("z")]) && Present(STOCK, entry[1..]) && Present(d, entry);
    assert place[1..] == [Key("z")] && Present(STOCK, [Key("z")]) && Present(d, place);
    PresentWithout(d, {place}, entry);
    assert entry[1] != place[1] && !CoveredBy(entry, {place});
    assert !Present(Held(EMPTY_STOCK), entry);
  }

  lemma PlaceUnder(member: string, i: nat)
    requires i < 2 && member == ["A", "B"][i]
    ensures Place(Holder(SHELF, SHELF), Held(STOCK), Under(member, [Key("z")])) == [Key("u"), Key("z")]
  {
    var loc := Under(member, [Key("z")]);
    UnionPlace(SHELF, STOCK, i, loc[1..]);
    assert Leads(STOCK, Key("z")) && "z" !in SHELF.fields;
    assert Place(SHELF, STOCK, [Key("z")]) == [Key("z")];
    HolderPlace(SHELF, STOCK, loc);
  }

  lemma UnionPlace(a: Schema, d: Json, i: nat, loc: Loc)
    requires WellFormed(a) && i < 2 && loc != [] && loc[0] == Key(["A", "B"][i])
    ensures Place(Smart([Member("A", a), Member("B", a)]), d, loc) == Place(a, d, loc[1..])
  {
    var union := Smart([Member("A", a), Member("B", a)]);
    assert union.options[0] == Member("A", a) && union.options[1] == Member("B", a);
    assert "A" != "B" && WellFormed(union);
    OneMember(union, d, loc, i);
  }

  lemma HolderPlace(a: Schema, d: Json, loc: Loc)
    requires loc != [] && loc[0] == Key("u")
    ensures Place(Holder(a, a), Held(d), loc)
            == [Key("u")] + Place(Smart([Member("A", a), Member("B", a)]), d, loc[1..])
  {
    assert Leads(Held(d), loc[0]) && Child(Held(d), loc[0]) == d;
  }
}
