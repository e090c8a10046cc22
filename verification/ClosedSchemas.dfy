/** Closed schemas as the queue contracts use them: strict validation, what the
    validator reports, and where in the payload a reported field is. */
module ClosedSchemas {
  import opened JsonPaths

  datatype Kind = Extra | Missing | WrongType | BadTag

  datatype Problem = Problem(kind: Kind, loc: Loc)

  datatype Atom = AnyNull | AnyBool | AnyNum | AnyStr | OneOf(choices: set<string>)

  datatype Field = Field(schema: Schema, required: bool)

  datatype Member = Member(name: string, schema: Schema)

  /** The part of the contract language the queue messages use. Models are
      closed: an unknown field is an error. */
  datatype Schema =
    | Scalar(atom: Atom)
    | Nullable(inner: Schema)
    | Items(elem: Schema)
    | Dict(elem: Schema)
    | Model(fields: map<string, Field>)
    | Tagged(tagField: string, members: map<string, Schema>)
    | Smart(options: seq<Member>)

  // ---------------------------------------------------------- strict validation

  predicate Matches(atom: Atom, d: Json) {
    match atom
    case AnyNull => d.Null?
    case AnyBool => d.Bool?
    case AnyNum => d.Num?
    case AnyStr => d.Str?
    case OneOf(choices) => d.Str? && d.s in choices
  }

  /** The scalars, and the strings a choice admits. */
  lemma ScalarsExactly(d: Json, choices: set<string>)
    ensures Valid(Scalar(AnyNull), d) <==> d == Null
    ensures Valid(Scalar(AnyBool), d) <==> d == Bool(true) || d == Bool(false)
    ensures Valid(Scalar(AnyNum), d) <==> exists n :: d == Num(n)
    ensures Valid(Scalar(AnyStr), d) <==> exists text :: d == Str(text)
    ensures Valid(Scalar(OneOf(choices)), d) <==> exists text :: text in choices && d == Str(text)
  {
  }

  /** The member a discriminated union selects for `d`. */
  predicate HasTag(s: Schema, d: Json)
    requires s.Tagged?
  {
    && d.Obj? && s.tagField in d.fields && d.fields[s.tagField].Str?
    && d.fields[s.tagField].s in s.members
  }

  function Tag(s: Schema, d: Json): string
    requires s.Tagged? && HasTag(s, d)
  {
    d.fields[s.tagField].s
  }

  predicate Valid(s: Schema, d: Json) {
    match s
    case Scalar(atom) => Matches(atom, d)
    case Nullable(inner) => d.Null? || Valid(inner, d)
    case Items(elem) => d.Arr? && forall i :: 0 <= i < |d.items| ==> Valid(elem, d.items[i])
    case Dict(elem) => d.Obj? && forall k :: k in d.fields ==> Valid(elem, d.fields[k])
    case Model(fields) =>
      && d.Obj?
      && (forall k :: k in d.fields ==> k in fields && Valid(fields[k].schema, d.fields[k]))
      && (forall k :: k in fields && fields[k].required ==> k in d.fields)
    case Tagged(tagField, members) => HasTag(s, d) && Valid(members[Tag(s, d)], d)
    case Smart(options) => exists i :: 0 <= i < |options| && Valid(options[i].schema, d)
  }

  /** What the validator reports about `d`. A discriminated union reports the
      selected member only, an undiscriminated one every member, each under its
      own name. */
  predicate Reported(s: Schema, d: Json, kind: Kind, loc: Loc) {
    match s
    case Scalar(atom) => kind == WrongType && loc == [] && !Matches(atom, d)
    case Nullable(inner) => !d.Null? && Reported(inner, d, kind, loc)
    case Items(elem) =>
      if !d.Arr? then kind == WrongType && loc == []
      else
        && loc != [] && loc[0].Index? && loc[0].i < |d.items|
        && Reported(elem, d.items[loc[0].i], kind, loc[1..])
    case Dict(elem) =>
      if !d.Obj? then kind == WrongType && loc == []
      else
        && loc != [] && loc[0].Key? && loc[0].name in d.fields
        && Reported(elem, d.fields[loc[0].name], kind, loc[1..])
    case Model(fields) =>
      if !d.Obj? then kind == WrongType && loc == []
      else
        && loc != [] && loc[0].Key?
        && var k := loc[0].name;
           if k in d.fields && k in fields then Reported(fields[k].schema, d.fields[k], kind, loc[1..])
           else if k in d.fields then kind == Extra && |loc| == 1
           else kind == Missing && |loc| == 1 && k in fields && fields[k].required
    case Tagged(tagField, members) =>
      if !HasTag(s, d) then kind == BadTag && loc == []
      else
        && loc != [] && loc[0] == Key(Tag(s, d))
        && Reported(members[Tag(s, d)], d, kind, loc[1..])
    case Smart(options) =>
      && !Valid(s, d)
      && loc != []
      && exists i :: 0 <= i < |options| && loc[0] == Key(options[i].name)
                     && Reported(options[i].schema, d, kind, loc[1..])
  }

  function Beneath(step: Step, problems: set<Problem>): set<Problem> {
    set p | p in problems :: Problem(p.kind, [step] + p.loc)
  }

  /** All of it, as a set: what the validator finds in a payload is finite. */
  function Problems(s: Schema, d: Json): set<Problem> {
    match s
    case Scalar(atom) => if Matches(atom, d) then {} else {Problem(WrongType, [])}
    case Nullable(inner) => if d.Null? then {} else Problems(inner, d)
    case Items(elem) =>
      if !d.Arr? then {Problem(WrongType, [])}
      else set i, p | 0 <= i < |d.items| && p in Beneath(Index(i), Problems(elem, d.items[i])) :: p
    case Dict(elem) =>
      if !d.Obj? then {Problem(WrongType, [])}
      else set k, p | k in d.fields && p in Beneath(Key(k), Problems(elem, d.fields[k])) :: p
    case Model(fields) =>
      if !d.Obj? then {Problem(WrongType, [])}
      else
        (set k, p | k in d.fields && k in fields && p in Beneath(Key(k), Problems(fields[k].schema, d.fields[k])) :: p)
        + (set k | k in d.fields && k !in fields :: Problem(Extra, [Key(k)]))
        + (set k | k in fields && k !in d.fields && fields[k].required :: Problem(Missing, [Key(k)]))
    case Tagged(tagField, members) =>
      if !HasTag(s, d) then {Problem(BadTag, [])}
      else Beneath(Key(Tag(s, d)), Problems(members[Tag(s, d)], d))
    case Smart(options) =>
      if Valid(s, d) then {}
      else set i, p | 0 <= i < |options| && p in Beneath(Key(options[i].name), Problems(options[i].schema, d)) :: p
  }

  lemma BeneathExact(step: Step, problems: set<Problem>, p: Problem)
    ensures p in Beneath(step, problems) <==>
              p.loc != [] && p.loc[0] == step && Problem(p.kind, p.loc[1..]) in problems
  {
    if p.loc != [] {
      assert p.loc == [p.loc[0]] + p.loc[1..];
    }
    forall q | q in problems && p == Problem(q.kind, [step] + q.loc) ensures Problem(p.kind, p.loc[1..]) == q {
      assert p.loc[1..] == q.loc;
    }
  }

  lemma {:induction false} ProblemsExact(s: Schema, d: Json, p: Problem)
    ensures p in Problems(s, d) <==> Reported(s, d, p.kind, p.loc)
  {
    var rest := if p.loc == [] then p else Problem(p.kind, p.loc[1..]);
    match s {
      case Scalar(_) =>
      case Nullable(inner) => ProblemsExact(inner, d, p);
      case Items(elem) =>
        if d.Arr? {
          forall i | 0 <= i < |d.items|
            ensures p in Beneath(Index(i), Problems(elem, d.items[i])) <==>
                      p.loc != [] && p.loc[0] == Index(i) && Reported(elem, d.items[i], p.kind, p.loc[1..])
          {
            BeneathExact(Index(i), Problems(elem, d.items[i]), p);
            ProblemsExact(elem, d.items[i], rest);
          }
        }
      case Dict(elem) =>
        if d.Obj? {
          forall k | k in d.fields
            ensures p in Beneath(Key(k), Problems(elem, d.fields[k])) <==>
                      p.loc != [] && p.loc[0] == Key(k) && Reported(elem, d.fields[k], p.kind, p.loc[1..])
          {
            BeneathExact(Key(k), Problems(elem, d.fields[k]), p);
            ProblemsExact(elem, d.fields[k], rest);
          }
        }
      case Model(fields) =>
        if d.Obj? {
          ModelProblems(s, d, p);
          forall k | k in d.fields && k in fields
            ensures p in Beneath(Key(k), Problems(fields[k].schema, d.fields[k])) <==>
                      p.loc != [] && p.loc[0] == Key(k) && Reported(fields[k].schema, d.fields[k], p.kind, p.loc[1..])
          {
            BeneathExact(Key(k), Problems(fields[k].schema, d.fields[k]), p);
            ProblemsExact(fields[k].schema, d.fields[k], rest);
          }
        }
      case Tagged(_, members) =>
        if HasTag(s, d) {
          BeneathExact(Key(Tag(s, d)), Problems(members[Tag(s, d)], d), p);
          ProblemsExact(members[Tag(s, d)], d, rest);
        }
      case Smart(options) =>
        forall i | 0 <= i < |options|
          ensures p in Beneath(Key(options[i].name), Problems(options[i].schema, d)) <==>
                    p.loc != [] && p.loc[0] == Key(options[i].name) && Reported(options[i].schema, d, p.kind, p.loc[1..])
        {
          BeneathExact(Key(options[i].name), Problems(options[i].schema, d), p);
          ProblemsExact(options[i].schema, d, rest);
        }
    }
  }

  lemma ModelProblems(s: Schema, d: Json, p: Problem)
    requires s.Model? && d.Obj?
    ensures
      p in Problems(s, d) <==>
        || (exists k :: k in d.fields && k in s.fields
              && p in Beneath(Key(k), Problems(s.fields[k].schema, d.fields[k])))
        || (|p.loc| == 1 && p.loc[0].Key? && p.kind == Extra
              && p.loc[0].name in d.fields && p.loc[0].name !in s.fields)
        || (|p.loc| == 1 && p.loc[0].Key? && p.kind == Missing
              && p.loc[0].name in s.fields && p.loc[0].name !in d.fields && s.fields[p.loc[0].name].required)
  {
    if |p.loc| == 1 {
      assert p.loc == [p.loc[0]];
    }
  }

  /** The validated value: what the caller gets to see. */
  datatype Value =
    | Leaf(json: Json)
    | ListOf(elems: seq<Value>)
    | Table(entries: map<string, Value>)
    | Record(entries: map<string, Value>)
    | Chosen(member: string, value: Value)

  /** The first member of an undiscriminated union that accepts `d`. */
  function FirstValid(options: seq<Member>, d: Json): (i: nat)
    requires exists i :: 0 <= i < |options| && Valid(options[i].schema, d)
    ensures i < |options| && Valid(options[i].schema, d)
    ensures forall j :: 0 <= j < i ==> !Valid(options[j].schema, d)
  {
    if Valid(options[0].schema, d) then 0
    else
      assert forall i :: 0 < i < |options| ==> options[1..][i - 1] == options[i];
      1 + FirstValid(options[1..], d)
  }

  function Parse(s: Schema, d: Json): Value
    requires Valid(s, d)
  {
    match s
    case Scalar(_) => Leaf(d)
    case Nullable(inner) => if d.Null? then Leaf(d) else Parse(inner, d)
    case Items(elem) =>
      ListOf(seq(|d.items|, i requires 0 <= i < |d.items| => Parse(elem, d.items[i])))
    case Dict(elem) => Table(map k | k in d.fields :: Parse(elem, d.fields[k]))
    case Model(fields) => Record(map k | k in d.fields :: Parse(fields[k].schema, d.fields[k]))
    case Tagged(_, members) => Chosen(Tag(s, d), Parse(members[Tag(s, d)], d))
    case Smart(options) =>
      var i := FirstValid(options, d);
      Chosen(options[i].name, Parse(options[i].schema, d))
  }

  /** Unions have members, an undiscriminated one with distinct names; a
      discriminated union's members are models that declare the discriminating
      field. */
  predicate WellFormed(s: Schema) {
    match s
    case Scalar(_) => true
    case Nullable(inner) => WellFormed(inner)
    case Items(elem) => WellFormed(elem)
    case Dict(elem) => WellFormed(elem)
    case Model(fields) => forall k :: k in fields ==> WellFormed(fields[k].schema)
    case Tagged(tagField, members) =>
      forall t :: t in members ==>
        members[t].Model? && tagField in members[t].fields && WellFormed(members[t])
    case Smart(options) =>
      && options != []
      && (forall i :: 0 <= i < |options| ==> WellFormed(options[i].schema))
      && (forall i, j :: 0 <= i < j < |options| ==> options[i].name != options[j].name)
  }

  /** The value carries everything that was validated: payloads that are read
      alike are the same payload. */
  lemma {:induction false} ParseIsInjective(s: Schema, d: Json, d': Json)
    requires WellFormed(s) && Valid(s, d) && Valid(s, d') && Parse(s, d) == Parse(s, d')
    ensures d == d'
  {
    match s {
      case Scalar(_) =>
      case Nullable(inner) =>
        if !d.Null? && !d'.Null? {
          ParseIsInjective(inner, d, d');
        } else {
          NullIsReadAsNull(s, d);
          NullIsReadAsNull(s, d');
        }
      case Items(elem) =>
        var a, b := Parse(s, d).elems, Parse(s, d').elems;
        assert |d.items| == |a| == |b| == |d'.items|;
        forall i | 0 <= i < |d.items| ensures d.items[i] == d'.items[i] {
          assert a[i] == Parse(elem, d.items[i]) && b[i] == Parse(elem, d'.items[i]);
          ParseIsInjective(elem, d.items[i], d'.items[i]);
        }
        assert d.items == d'.items;
      case Dict(elem) =>
        var a, b := Parse(s, d).entries, Parse(s, d').entries;
        assert a.Keys == d.fields.Keys && b.Keys == d'.fields.Keys;
        forall k | k in d.fields ensures d.fields[k] == d'.fields[k] {
          assert a[k] == Parse(elem, d.fields[k]) && b[k] == Parse(elem, d'.fields[k]);
          ParseIsInjective(elem, d.fields[k], d'.fields[k]);
        }
        assert d.fields == d'.fields;
      case Model(fields) =>
        var a, b := Parse(s, d).entries, Parse(s, d').entries;
        assert a.Keys == d.fields.Keys && b.Keys == d'.fields.Keys;
        forall k | k in d.fields ensures d.fields[k] == d'.fields[k] {
          assert a[k] == Parse(fields[k].schema, d.fields[k]) && b[k] == Parse(fields[k].schema, d'.fields[k]);
          ParseIsInjective(fields[k].schema, d.fields[k], d'.fields[k]);
        }
        assert d.fields == d'.fields;
      case Tagged(_, members) => ParseIsInjective(members[Tag(s, d)], d, d');
      case Smart(options) =>
        var i, j := FirstValid(options, d), FirstValid(options, d');
        assert Parse(s, d) == Chosen(options[i].name, Parse(options[i].schema, d));
        assert Parse(s, d') == Chosen(options[j].name, Parse(options[j].schema, d'));
        assert i == j;
        ParseIsInjective(options[i].schema, d, d');
    }
  }

  lemma {:induction false} NullIsReadAsNull(s: Schema, d: Json)
    requires Valid(s, d)
    ensures Parse(s, d) == Leaf(Json.Null) ==> d.Null?
  {
    if s.Nullable? && !d.Null? {
      NullIsReadAsNull(s.inner, d);
    }
  }

  lemma {:induction false} Complaint(s: Schema, d: Json) returns (kind: Kind, loc: Loc)
    requires WellFormed(s) && !Valid(s, d)
    ensures Reported(s, d, kind, loc)
  {
    match s {
      case Scalar(_) => return WrongType, [];
      case Nullable(inner) => kind, loc := Complaint(inner, d);
      case Items(elem) =>
        if !d.Arr? { return WrongType, []; }
        var i :| 0 <= i < |d.items| && !Valid(elem, d.items[i]);
        kind, loc := Complaint(elem, d.items[i]);
        loc := [Index(i)] + loc;
      case Dict(elem) =>
        if !d.Obj? { return WrongType, []; }
        var k :| k in d.fields && !Valid(elem, d.fields[k]);
        kind, loc := Complaint(elem, d.fields[k]);
        loc := [Key(k)] + loc;
      case Model(fields) =>
        if !d.Obj? { return WrongType, []; }
        if k :| k in d.fields && k !in fields { return Extra, [Key(k)]; }
        if k :| k in fields && fields[k].required && k !in d.fields { return Missing, [Key(k)]; }
        var k :| k in d.fields && !Valid(fields[k].schema, d.fields[k]);
        kind, loc := Complaint(fields[k].schema, d.fields[k]);
        loc := [Key(k)] + loc;
      case Tagged(_, members) =>
        if !HasTag(s, d) { return BadTag, []; }
        kind, loc := Complaint(members[Tag(s, d)], d);
        loc := [Key(Tag(s, d))] + loc;
      case Smart(options) =>
        kind, loc := Complaint(options[0].schema, d);
        loc := [Key(options[0].name)] + loc;
    }
  }

  /** The validator complains exactly about invalid data. */
  lemma {:induction false} ValidIsQuiet(s: Schema, d: Json, kind: Kind, loc: Loc)
    requires Valid(s, d)
    ensures !Reported(s, d, kind, loc)
  {
    match s {
      case Scalar(_) =>
      case Nullable(inner) => if !d.Null? { ValidIsQuiet(inner, d, kind, loc); }
      case Items(elem) =>
        if loc != [] && loc[0].Index? && loc[0].i < |d.items| {
          ValidIsQuiet(elem, d.items[loc[0].i], kind, loc[1..]);
        }
      case Dict(elem) =>
        if loc != [] && loc[0].Key? && loc[0].name in d.fields {
          ValidIsQuiet(elem, d.fields[loc[0].name], kind, loc[1..]);
        }
      case Model(fields) =>
        if loc != [] && loc[0].Key? && loc[0].name in d.fields {
          ValidIsQuiet(fields[loc[0].name].schema, d.fields[loc[0].name], kind, loc[1..]);
        }
      case Tagged(_, members) =>
        if loc != [] { ValidIsQuiet(members[Tag(s, d)], d, kind, loc[1..]); }
      case Smart(_) =>
    }
  }

  /** The validator complains about unexpected fields and nothing else. */
  ghost predicate OnlyExtra(s: Schema, d: Json) {
    forall kind, l :: Reported(s, d, kind, l) ==> kind == Extra
  }

  lemma NoComplaintsMeansValid(s: Schema, d: Json)
    requires WellFormed(s)
    requires forall kind, l :: !Reported(s, d, kind, l)
    ensures Valid(s, d)
  {
    if !Valid(s, d) {
      var kind, loc := Complaint(s, d);
      assert false;
    }
  }

  // ------------------------------------------------------- where a field really is

  /** The place in the payload of a reported unexpected field, read off the
      schema: tags and member names lead nowhere, every other step does. */
  ghost function Place(s: Schema, d: Json, loc: Loc): Loc {
    if loc == [] then []
    else
      match s
      case Scalar(_) => []
      case Nullable(inner) => Place(inner, d, loc)
      case Items(elem) =>
        if d.Arr? && Leads(d, loc[0]) then [loc[0]] + Place(elem, Child(d, loc[0]), loc[1..]) else []
      case Dict(elem) =>
        if d.Obj? && Leads(d, loc[0]) then [loc[0]] + Place(elem, Child(d, loc[0]), loc[1..]) else []
      case Model(fields) =>
        if d.Obj? && Leads(d, loc[0]) then
          if loc[0].name in fields then
            [loc[0]] + Place(fields[loc[0].name].schema, Child(d, loc[0]), loc[1..])
          else [loc[0]]
        else []
      case Tagged(_, members) => if HasTag(s, d) then Place(members[Tag(s, d)], d, loc[1..]) else []
      case Smart(options) =>
        if i :| 0 <= i < |options| && loc[0] == Key(options[i].name) then Place(options[i].schema, d, loc[1..])
        else []
  }

  /** The member with a given name is the only one. */
  lemma OneMember(s: Schema, d: Json, loc: Loc, i: nat)
    requires s.Smart? && WellFormed(s) && i < |s.options|
    requires loc != [] && loc[0] == Key(s.options[i].name)
    ensures Place(s, d, loc) == Place(s.options[i].schema, d, loc[1..])
    ensures Reported(s, d, Extra, loc) <==> !Valid(s, d) && Reported(s.options[i].schema, d, Extra, loc[1..])
  {
    assert forall j :: 0 <= j < |s.options| && s.options[j].name == s.options[i].name ==> j == i;
  }

  /** Every reported unexpected field is in the payload, at its place. */
  lemma {:induction false} ExtraHasPlace(s: Schema, d: Json, loc: Loc)
    requires WellFormed(s) && Reported(s, d, Extra, loc)
    ensures loc != [] && (d.Obj? || d.Arr?)
    ensures Present(d, Place(s, d, loc))
    decreases s, 0
  {
    match s {
      case Scalar(_) =>
      case Nullable(inner) => ExtraHasPlace(inner, d, loc);
      case Items(elem) => ExtraBelow(elem, d, loc);
      case Dict(elem) => ExtraBelow(elem, d, loc);
      case Model(fields) => if loc[0].name in fields { ExtraBelow(fields[loc[0].name].schema, d, loc); }
      case Tagged(_, members) => ExtraHasPlace(members[Tag(s, d)], d, loc[1..]);
      case Smart(options) =>
        var i :| 0 <= i < |options| && loc[0] == Key(options[i].name)
                 && Reported(options[i].schema, d, Extra, loc[1..]);
        ExtraHasPlace(options[i].schema, d, loc[1..]);
        OneMember(s, d, loc, i);
    }
  }

  lemma ExtraBelow(elem: Schema, d: Json, loc: Loc)
    requires WellFormed(elem) && loc != [] && Leads(d, loc[0])
    requires Reported(elem, Child(d, loc[0]), Extra, loc[1..])
    ensures loc[1..] != []
    ensures Present(d, [loc[0]] + Place(elem, Child(d, loc[0]), loc[1..]))
    decreases elem, 1
  {
    ExtraHasPlace(elem, Child(d, loc[0]), loc[1..]);
    var p := Place(elem, Child(d, loc[0]), loc[1..]);
    assert ([loc[0]] + p)[0] == loc[0] && ([loc[0]] + p)[1..] == p;
  }

  // ------------------------------------------------- without undiscriminated unions

  /** No undiscriminated union anywhere. */
  predicate Flat(s: Schema) {
    match s
    case Scalar(_) => true
    case Nullable(inner) => Flat(inner)
    case Items(elem) => Flat(elem)
    case Dict(elem) => Flat(elem)
    case Model(fields) => forall k :: k in fields ==> Flat(fields[k].schema)
    case Tagged(_, members) => forall t :: t in members ==> Flat(members[t])
    case Smart(_) => false
  }

  /** Different unexpected fields have places neither of which lies in the other. */
  lemma {:induction false} PlacesApart(s: Schema, d: Json, a: Loc, b: Loc)
    requires Flat(s) && WellFormed(s) && Reported(s, d, Extra, a) && Reported(s, d, Extra, b)
    requires Place(s, d, a) <= Place(s, d, b)
    ensures a == b
    decreases s, 0
  {
    ExtraHasPlace(s, d, a);
    ExtraHasPlace(s, d, b);
    assert Place(s, d, a)[0] == Place(s, d, b)[0];
    match s {
      case Nullable(inner) => PlacesApart(inner, d, a, b);
      case Items(elem) => ApartBelow(elem, d, a, b);
      case Dict(elem) => ApartBelow(elem, d, a, b);
      case Model(fields) =>
        if a[0].name in fields {
          ApartBelow(fields[a[0].name].schema, d, a, b);
        } else {
          assert a == [a[0]] && b == [b[0]];
        }
      case Tagged(_, members) =>
        PlacesApart(members[Tag(s, d)], d, a[1..], b[1..]);
        assert a == [a[0]] + a[1..] && b == [b[0]] + b[1..];
    }
  }

  lemma ApartBelow(elem: Schema, d: Json, a: Loc, b: Loc)
    requires Flat(elem) && WellFormed(elem) && a != [] && b != [] && a[0] == b[0] && Leads(d, a[0])
    requires Reported(elem, Child(d, a[0]), Extra, a[1..]) && Reported(elem, Child(d, a[0]), Extra, b[1..])
    requires [a[0]] + Place(elem, Child(d, a[0]), a[1..]) <= [a[0]] + Place(elem, Child(d, a[0]), b[1..])
    ensures a == b
    decreases elem, 1
  {
    var p, q := Place(elem, Child(d, a[0]), a[1..]), Place(elem, Child(d, a[0]), b[1..]);
    assert ([a[0]] + p)[1..] == p && ([a[0]] + q)[1..] == q;
    assert p <= q;
    PlacesApart(elem, Child(d, a[0]), a[1..], b[1..]);
    assert a == [a[0]] + a[1..] && b == [b[0]] + b[1..];
  }

  /** The payload without every field its schema does not know. */
  function Prune(s: Schema, d: Json): Json {
    match s
    case Scalar(_) => d
    case Nullable(inner) => if d.Null? then d else Prune(inner, d)
    case Items(elem) =>
      if d.Arr? then Arr(seq(|d.items|, i requires 0 <= i < |d.items| => Prune(elem, d.items[i]))) else d
    case Dict(elem) =>
      if d.Obj? then Obj(map k | k in d.fields :: Prune(elem, d.fields[k])) else d
    case Model(fields) =>
      if d.Obj? then Obj(map k | k in d.fields && k in fields :: Prune(fields[k].schema, d.fields[k])) else d
    case Tagged(_, members) =>
      if HasTag(s, d) then Prune(members[Tag(s, d)], d) else d
    case Smart(_) => d
  }

  /** What removing one unexpected field changes: nothing but that. */
  ghost predicate OnlyGone(s: Schema, d: Json, d': Json, loc: Loc) {
    && (forall kind, l :: Reported(s, d', kind, l) <==> Reported(s, d, kind, l) && !(kind == Extra && l == loc))
    && (forall l :: Reported(s, d', Extra, l) ==> Place(s, d', l) == Place(s, d, l))
    && Prune(s, d') == Prune(s, d)
  }

  /** Removing a field below one item. */
  lemma GoneInItem(elem: Schema, d: Json, i: nat, below: Json, tail: Loc)
    requires d.Arr? && i < |d.items| && OnlyGone(elem, d.items[i], below, tail)
    ensures OnlyGone(Items(elem), d, Arr(d.items[i := below]), [Index(i)] + tail)
  {
    var d', loc := Arr(d.items[i := below]), [Index(i)] + tail;
    forall kind, l
      ensures Reported(Items(elem), d', kind, l)
              <==> Reported(Items(elem), d, kind, l) && !(kind == Extra && l == loc)
    {
      if l != [] && l[0] == Index(i) {
        assert l == [l[0]] + l[1..] && loc[1..] == tail;
      }
    }
    forall l | Reported(Items(elem), d', Extra, l) ensures Place(Items(elem), d', l) == Place(Items(elem), d, l) {
      assert Leads(d', l[0]) && Leads(d, l[0]);
    }
    assert Prune(Items(elem), d').items == Prune(Items(elem), d).items;
  }

  /** Removing a field below one entry of a dictionary. */
  lemma GoneInEntry(elem: Schema, d: Json, k: string, below: Json, tail: Loc)
    requires d.Obj? && k in d.fields && OnlyGone(elem, d.fields[k], below, tail)
    ensures OnlyGone(Dict(elem), d, Obj(d.fields[k := below]), [Key(k)] + tail)
  {
    var d', loc := Obj(d.fields[k := below]), [Key(k)] + tail;
    forall kind, l
      ensures Reported(Dict(elem), d', kind, l)
              <==> Reported(Dict(elem), d, kind, l) && !(kind == Extra && l == loc)
    {
      if l != [] && l[0] == Key(k) {
        assert l == [l[0]] + l[1..] && loc[1..] == tail;
      }
    }
    forall l | Reported(Dict(elem), d', Extra, l) ensures Place(Dict(elem), d', l) == Place(Dict(elem), d, l) {
      assert Leads(d', l[0]) && Leads(d, l[0]);
    }
    assert Prune(Dict(elem), d').fields == Prune(Dict(elem), d).fields;
  }

  /** Removing a field below one known field of a model. */
  lemma GoneInField(s: Schema, d: Json, k: string, below: Json, tail: Loc)
    requires s.Model? && d.Obj? && k in d.fields && k in s.fields
    requires OnlyGone(s.fields[k].schema, d.fields[k], below, tail)
    ensures OnlyGone(s, d, Obj(d.fields[k := below]), [Key(k)] + tail)
  {
    var d', loc := Obj(d.fields[k := below]), [Key(k)] + tail;
    forall kind, l
      ensures Reported(s, d', kind, l) <==> Reported(s, d, kind, l) && !(kind == Extra && l == loc)
    {
      if l != [] && l[0] == Key(k) {
        assert l == [l[0]] + l[1..] && loc[1..] == tail;
      }
    }
    forall l | Reported(s, d', Extra, l) ensures Place(s, d', l) == Place(s, d, l) {
      assert Leads(d', l[0]) && Leads(d, l[0]);
    }
    assert Prune(s, d').fields == Prune(s, d).fields;
  }

  lemma UnknownGone(s: Schema, d: Json, k: string)
    requires s.Model? && d.Obj? && k in d.fields && k !in s.fields
    ensures OnlyGone(s, d, Obj(d.fields - {k}), [Key(k)])
  {
    var d', loc := Obj(d.fields - {k}), [Key(k)];
    forall kind, l
      ensures Reported(s, d', kind, l) <==> Reported(s, d, kind, l) && !(kind == Extra && l == loc)
    {
      if |l| == 1 && l[0] == Key(k) {
        assert l == loc;
      }
    }
    forall l | Reported(s, d', Extra, l) ensures Place(s, d', l) == Place(s, d, l) {
      assert Leads(d', l[0]) && Leads(d, l[0]);
    }
    assert Prune(s, d').fields == Prune(s, d).fields;
  }

  /** A removal below the selected member, the tag being left as it was. */
  lemma GoneInTagged(s: Schema, d: Json, d': Json, tail: Loc)
    requires s.Tagged? && HasTag(s, d) && HasTag(s, d') && Tag(s, d') == Tag(s, d)
    requires OnlyGone(s.members[Tag(s, d)], d, d', tail)
    ensures OnlyGone(s, d, d', [Key(Tag(s, d))] + tail)
  {
    var loc := [Key(Tag(s, d))] + tail;
    forall kind, l
      ensures Reported(s, d', kind, l) <==> Reported(s, d, kind, l) && !(kind == Extra && l == loc)
    {
      if l != [] && l[0] == Key(Tag(s, d)) {
        assert l == [l[0]] + l[1..] && loc[1..] == tail;
      }
    }
    var member := s.members[Tag(s, d)];
    assert Prune(s, d') == Prune(member, d') && Prune(s, d) == Prune(member, d);
  }

  lemma GoneInNullable(inner: Schema, d: Json, d': Json, loc: Loc)
    requires !d.Null? && !d'.Null? && OnlyGone(inner, d, d', loc)
    ensures OnlyGone(Nullable(inner), d, d', loc)
  {
    var s := Nullable(inner);
    forall l | Reported(s, d', Extra, l) ensures Place(s, d', l) == Place(s, d, l) {
      assert Place(s, d', l) == Place(inner, d', l) && Place(s, d, l) == Place(inner, d, l);
    }
    assert Prune(s, d') == Prune(inner, d') && Prune(s, d) == Prune(inner, d);
  }

  /** Removing an unexpected field of the selected member leaves the tag. */
  lemma TagSurvives(s: Schema, d: Json, loc: Loc)
    requires s.Tagged? && Flat(s) && WellFormed(s) && HasTag(s, d)
    requires Reported(s.members[Tag(s, d)], d, Extra, loc)
    ensures
      var d' := Without(d, {Place(s.members[Tag(s, d)], d, loc)});
      HasTag(s, d') && Tag(s, d') == Tag(s, d)
  {
    var member := s.members[Tag(s, d)];
    var p := Place(member, d, loc);
    ExtraHasPlace(member, d, loc);
    if p == [Key(s.tagField)] {
      ExtraHasPlace(member.fields[s.tagField].schema, d.fields[s.tagField], loc[1..]);
    }
  }

  /** Removing one reported unexpected field from its place silences exactly
      that report: no missing-field, wrong-type or bad-tag error ever goes with
      it, and every other unexpected field stays where it was. */
  lemma {:induction false} RemoveExtra(s: Schema, d: Json, loc: Loc)
    requires Flat(s) && WellFormed(s) && Reported(s, d, Extra, loc)
    ensures OnlyGone(s, d, Without(d, {Place(s, d, loc)}), loc)
  {
    ExtraHasPlace(s, d, loc);
    var p := Place(s, d, loc);
    var head, tail := loc[0], loc[1..];
    assert loc == [head] + tail;
    match s {
      case Nullable(inner) =>
        RemoveExtra(inner, d, loc);
        GoneInNullable(inner, d, Without(d, {p}), loc);
      case Items(elem) =>
        RemoveExtra(elem, d.items[head.i], tail);
        ExtraHasPlace(elem, d.items[head.i], tail);
        RemoveBelow(d, head, Place(elem, d.items[head.i], tail));
        GoneInItem(elem, d, head.i, Without(d.items[head.i], {Place(elem, d.items[head.i], tail)}), tail);
      case Dict(elem) =>
        RemoveExtra(elem, d.fields[head.name], tail);
        ExtraHasPlace(elem, d.fields[head.name], tail);
        RemoveBelow(d, head, Place(elem, d.fields[head.name], tail));
        GoneInEntry(elem, d, head.name, Without(d.fields[head.name], {Place(elem, d.fields[head.name], tail)}), tail);
      case Model(fields) =>
        if head.name in fields {
          var inner := fields[head.name].schema;
          RemoveExtra(inner, d.fields[head.name], tail);
          ExtraHasPlace(inner, d.fields[head.name], tail);
          RemoveBelow(d, head, Place(inner, d.fields[head.name], tail));
          GoneInField(s, d, head.name, Without(d.fields[head.name], {Place(inner, d.fields[head.name], tail)}), tail);
        } else {
          RemoveKey(d, head.name);
          UnknownGone(s, d, head.name);
        }
      case Tagged(_, members) =>
        RemoveExtra(members[Tag(s, d)], d, tail);
        TagSurvives(s, d, tail);
        GoneInTagged(s, d, Without(d, {p}), tail);
    }
  }

  lemma {:induction false} PruneOfValid(s: Schema, d: Json)
    requires Flat(s) && Valid(s, d)
    ensures Prune(s, d) == d
  {
    match s {
      case Scalar(_) =>
      case Nullable(inner) => if !d.Null? { PruneOfValid(inner, d); }
      case Items(elem) =>
        forall i | 0 <= i < |d.items| ensures Prune(elem, d.items[i]) == d.items[i] {
          PruneOfValid(elem, d.items[i]);
        }
        assert Prune(s, d).items == d.items;
      case Dict(elem) =>
        forall k | k in d.fields ensures Prune(elem, d.fields[k]) == d.fields[k] {
          PruneOfValid(elem, d.fields[k]);
        }
        assert Prune(s, d).fields == d.fields;
      case Model(fields) =>
        forall k | k in d.fields ensures Prune(fields[k].schema, d.fields[k]) == d.fields[k] {
          PruneOfValid(fields[k].schema, d.fields[k]);
        }
        assert Prune(s, d).fields == d.fields;
      case Tagged(_, members) => PruneOfValid(members[Tag(s, d)], d);
    }
  }

  // ------------------------------------------------------------ newer publishers

  /** `d` is `base` with fields added, at any depth, that the schema does not
      know where they stand. */
  predicate Grown(s: Schema, base: Json, d: Json) {
    match s
    case Scalar(_) => d == base
    case Nullable(inner) => if base.Null? then d == base else !d.Null? && Grown(inner, base, d)
    case Items(elem) =>
      && base.Arr? && d.Arr? && |base.items| == |d.items|
      && forall i :: 0 <= i < |d.items| ==> Grown(elem, base.items[i], d.items[i])
    case Dict(elem) =>
      && base.Obj? && d.Obj? && base.fields.Keys == d.fields.Keys
      && forall k :: k in d.fields ==> Grown(elem, base.fields[k], d.fields[k])
    case Model(fields) =>
      && base.Obj? && d.Obj? && base.fields.Keys <= d.fields.Keys
      && (forall k :: k in d.fields && k !in base.fields ==> k !in fields)
      && (forall k :: k in base.fields && k in fields ==> Grown(fields[k].schema, base.fields[k], d.fields[k]))
    case Tagged(tagField, members) =>
      && HasTag(s, base) && HasTag(s, d) && Tag(s, base) == Tag(s, d)
      && Grown(members[Tag(s, d)], base, d)
    case Smart(_) => false
  }

  lemma {:induction false} GrownPrunesBack(s: Schema, base: Json, d: Json)
    requires Flat(s) && Valid(s, base) && Grown(s, base, d)
    ensures Prune(s, d) == base
  {
    match s {
      case Scalar(_) =>
      case Nullable(inner) => if !base.Null? { GrownPrunesBack(inner, base, d); }
      case Items(elem) =>
        forall i | 0 <= i < |d.items| ensures Prune(elem, d.items[i]) == base.items[i] {
          GrownPrunesBack(elem, base.items[i], d.items[i]);
        }
        assert Prune(s, d).items == base.items;
      case Dict(elem) =>
        forall k | k in d.fields ensures Prune(elem, d.fields[k]) == base.fields[k] {
          GrownPrunesBack(elem, base.fields[k], d.fields[k]);
        }
        assert Prune(s, d).fields == base.fields;
      case Model(fields) =>
        forall k | k in base.fields ensures Prune(fields[k].schema, d.fields[k]) == base.fields[k] {
          GrownPrunesBack(fields[k].schema, base.fields[k], d.fields[k]);
        }
        assert Prune(s, d).fields == base.fields;
      case Tagged(_, members) => GrownPrunesBack(members[Tag(s, d)], base, d);
    }
  }

  lemma {:induction false} GrownIsOnlyExtra(s: Schema, base: Json, d: Json, kind: Kind, loc: Loc)
    requires Flat(s) && Valid(s, base) && Grown(s, base, d) && Reported(s, d, kind, loc)
    ensures kind == Extra
  {
    match s {
      case Scalar(_) =>
      case Nullable(inner) => GrownIsOnlyExtra(inner, base, d, kind, loc);
      case Items(elem) =>
        GrownIsOnlyExtra(elem, base.items[loc[0].i], d.items[loc[0].i], kind, loc[1..]);
      case Dict(elem) =>
        GrownIsOnlyExtra(elem, base.fields[loc[0].name], d.fields[loc[0].name], kind, loc[1..]);
      case Model(fields) =>
        var k := loc[0].name;
        if k in base.fields && k in fields {
          GrownIsOnlyExtra(fields[k].schema, base.fields[k], d.fields[k], kind, loc[1..]);
        }
      case Tagged(_, members) =>
        GrownIsOnlyExtra(members[Tag(s, d)], base, d, kind, loc[1..]);
    }
  }

  lemma {:induction false} PruneKeepsScalars(s: Schema, d: Json)
    ensures !d.Obj? && !d.Arr? ==> Prune(s, d) == d
    ensures Prune(s, d).Null? == d.Null?
  {
    match s {
      case Scalar(_) =>
      case Nullable(inner) => PruneKeepsScalars(inner, d);
      case Items(elem) =>
      case Dict(elem) =>
      case Model(fields) =>
      case Tagged(_, members) => if HasTag(s, d) { PruneKeepsScalars(members[Tag(s, d)], d); }
      case Smart(_) =>
    }
  }

  lemma OnlyExtraBelow(s: Schema, d: Json, below: Schema, child: Json, step: Step)
    requires OnlyExtra(s, d)
    requires forall kind, l :: Reported(below, child, kind, l) ==> Reported(s, d, kind, [step] + l)
    ensures OnlyExtra(below, child)
  {
  }

  lemma ReportedBelow(s: Schema, d: Json, below: Schema, child: Json, step: Step)
    requires match s
             case Items(elem) =>
               d.Arr? && step.Index? && step.i < |d.items| && child == d.items[step.i] && below == elem
             case Dict(elem) =>
               d.Obj? && step.Key? && step.name in d.fields && child == d.fields[step.name] && below == elem
             case Model(fields) =>
               && d.Obj? && step.Key? && step.name in d.fields && child == d.fields[step.name]
               && step.name in fields && below == fields[step.name].schema
             case Tagged(_, members) =>
               HasTag(s, d) && step == Key(Tag(s, d)) && child == d && below == members[Tag(s, d)]
             case _ => false
    ensures forall kind, l :: Reported(below, child, kind, l) ==> Reported(s, d, kind, [step] + l)
  {
    forall kind, l | Reported(below, child, kind, l) ensures Reported(s, d, kind, [step] + l) {
      assert ([step] + l)[0] == step && ([step] + l)[1..] == l;
    }
  }

  /** A payload with nothing but unexpected fields too much is its pruning grown. */
  lemma {:induction false} PrunedIsGrown(s: Schema, d: Json)
    requires Flat(s) && WellFormed(s) && OnlyExtra(s, d)
    ensures Grown(s, Prune(s, d), d)
  {
    match s {
      case Scalar(_) =>
      case Nullable(inner) =>
        if !d.Null? {
          assert forall kind, l :: Reported(inner, d, kind, l) ==> Reported(s, d, kind, l);
          PrunedIsGrown(inner, d);
          PruneKeepsScalars(inner, d);
        }
      case Items(elem) =>
        assert !Reported(s, d, WrongType, []);
        forall i | 0 <= i < |d.items| ensures Grown(elem, Prune(elem, d.items[i]), d.items[i]) {
          ReportedBelow(s, d, elem, d.items[i], Index(i));
          OnlyExtraBelow(s, d, elem, d.items[i], Index(i));
          PrunedIsGrown(elem, d.items[i]);
        }
      case Dict(elem) =>
        assert !Reported(s, d, WrongType, []);
        forall k | k in d.fields ensures Grown(elem, Prune(elem, d.fields[k]), d.fields[k]) {
          ReportedBelow(s, d, elem, d.fields[k], Key(k));
          OnlyExtraBelow(s, d, elem, d.fields[k], Key(k));
          PrunedIsGrown(elem, d.fields[k]);
        }
      case Model(fields) =>
        assert !Reported(s, d, WrongType, []);
        forall k | k in d.fields && k in fields
          ensures Grown(fields[k].schema, Prune(fields[k].schema, d.fields[k]), d.fields[k])
        {
          ReportedBelow(s, d, fields[k].schema, d.fields[k], Key(k));
          OnlyExtraBelow(s, d, fields[k].schema, d.fields[k], Key(k));
          PrunedIsGrown(fields[k].schema, d.fields[k]);
        }
      case Tagged(tagField, members) =>
        assert !Reported(s, d, BadTag, []);
        var member := members[Tag(s, d)];
        ReportedBelow(s, d, member, d, Key(Tag(s, d)));
        OnlyExtraBelow(s, d, member, d, Key(Tag(s, d)));
        PrunedIsGrown(member, d);
        PruneKeepsScalars(member.fields[tagField].schema, d.fields[tagField]);
    }
  }

  /** Which payloads are a valid one with unknown fields added: those about which
      only unexpected fields are reported and whose pruning it is. */
  lemma GrownExactly(s: Schema, base: Json, d: Json)
    requires Flat(s) && WellFormed(s) && Valid(s, base)
    ensures Grown(s, base, d) <==> OnlyExtra(s, d) && Prune(s, d) == base
  {
    if Grown(s, base, d) {
      GrownPrunesBack(s, base, d);
      forall kind, l | Reported(s, d, kind, l) ensures kind == Extra {
        GrownIsOnlyExtra(s, base, d, kind, l);
      }
    } else if OnlyExtra(s, d) {
      PrunedIsGrown(s, d);
    }
  }

  // -------------------------------------------------- fields that do land truly

  /** The location leads to the place the schema says. */
  ghost predicate Lands(s: Schema, d: Json, loc: Loc) {
    loc != [] && Landing(d, loc) == Some(Place(s, d, loc))
  }

  ghost predicate AllLand(s: Schema, d: Json) {
    forall l :: Reported(s, d, Extra, l) ==> Lands(s, d, l)
  }

  /** No payload object that a discriminated union applies to has a key spelled
      like the tag that selects its member. */
  predicate TagFree(s: Schema, d: Json) {
    match s
    case Scalar(_) => true
    case Nullable(inner) => TagFree(inner, d)
    case Items(elem) => d.Arr? ==> forall i :: 0 <= i < |d.items| ==> TagFree(elem, d.items[i])
    case Dict(elem) => d.Obj? ==> forall k :: k in d.fields ==> TagFree(elem, d.fields[k])
    case Model(fields) =>
      d.Obj? ==> forall k :: k in d.fields && k in fields ==> TagFree(fields[k].schema, d.fields[k])
    case Tagged(_, members) =>
      HasTag(s, d) ==> Tag(s, d) !in d.fields && TagFree(members[Tag(s, d)], d)
    case Smart(options) => forall i :: 0 <= i < |options| ==> TagFree(options[i].schema, d)
  }

  /** A simple way to make sure of it: no key is spelled like a tag. */
  lemma {:induction false} TagFreeLands(s: Schema, d: Json, loc: Loc)
    requires Flat(s) && WellFormed(s) && TagFree(s, d) && Reported(s, d, Extra, loc)
    ensures Lands(s, d, loc)
  {
    ExtraHasPlace(s, d, loc);
    match s {
      case Nullable(inner) => TagFreeLands(inner, d, loc);
      case Items(elem) => TagFreeLands(elem, d.items[loc[0].i], loc[1..]);
      case Dict(elem) => TagFreeLands(elem, d.fields[loc[0].name], loc[1..]);
      case Model(fields) =>
        if loc[0].name in fields {
          TagFreeLands(fields[loc[0].name].schema, d.fields[loc[0].name], loc[1..]);
        }
      case Tagged(_, members) => TagFreeLands(members[Tag(s, d)], d, loc[1..]);
    }
  }
}
