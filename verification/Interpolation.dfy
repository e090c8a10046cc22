/** Which variable names a Compose scalar interpolates: the scanning loop of
    shared/contracts/env_usage.py against a specification that looks at each
    position of the text on its own.
  */
module Interpolation {

  /** The letters and the letters-or-digits of the text's character set. */
  datatype Alphabet = Alphabet(letter: char -> bool, alnum: char -> bool)

  /** What every character set the scanner runs on satisfies: letters are letters
      or digits, and the punctuation of the notation is neither.
    */
  ghost predicate Proper(a: Alphabet) {
    && (forall c :: a.letter(c) ==> a.alnum(c))
    && !a.alnum('$') && !a.alnum('_') && !a.alnum('{') && !a.alnum('}')
    && !a.alnum(':') && !a.alnum('?') && !a.alnum('+') && !a.alnum('-')
  }

  predicate NameStart(a: Alphabet, c: char) {
    a.letter(c) || c == '_'
  }

  predicate NameChar(a: Alphabet, c: char) {
    a.alnum(c) || c == '_'
  }

  predicate Closes(c: char) {
    c == '}' || c == ':' || c == '?' || c == '+' || c == '-'
  }

  // ------------------------------------------------------------- specification

  /** The end of the longest run of name characters that begins at `from`. */
  function NameEnd(a: Alphabet, text: string, from: nat): (end: nat)
    requires from <= |text|
    ensures from <= end <= |text|
    decreases |text| - from
  {
    if from < |text| && NameChar(a, text[from]) then NameEnd(a, text, from + 1) else from
  }

  lemma {:induction false} NameEndIsMaximal(a: Alphabet, text: string, from: nat)
    requires from <= |text|
    ensures forall k :: from <= k < NameEnd(a, text, from) ==> NameChar(a, text[k])
    ensures NameEnd(a, text, from) < |text| ==> !NameChar(a, text[NameEnd(a, text, from)])
    decreases |text| - from
  {
    if from < |text| && NameChar(a, text[from]) {
      NameEndIsMaximal(a, text, from + 1);
    }
  }

  /** How many dollar signs stand in a row just before position `i`. */
  function DollarsBefore(text: string, i: nat): (n: nat)
    requires i <= |text|
    ensures n <= i
  {
    if i > 0 && text[i - 1] == '$' then 1 + DollarsBefore(text, i - 1) else 0
  }

  lemma {:induction false} DollarsAreMaximal(text: string, i: nat)
    requires i <= |text|
    ensures var n := DollarsBefore(text, i);
      && (forall k :: i - n <= k < i ==> text[k] == '$')
      && (n < i ==> text[i - n - 1] != '$')
  {
    if i > 0 && text[i - 1] == '$' {
      DollarsAreMaximal(text, i - 1);
    }
  }

  predicate Braced(text: string, p: nat) {
    p < |text| && text[p] == '{'
  }

  /** Where the name starts when the notation after the dollar signs starts at `p`. */
  function NameAt(text: string, p: nat): (start: nat)
    requires p <= |text|
    ensures start <= |text|
  {
    if Braced(text, p) then p + 1 else p
  }

  /** A well-formed `NAME`, or `{NAME` with a closing or operator sign after it. */
  predicate WellFormed(a: Alphabet, text: string, p: nat)
    requires p <= |text|
  {
    var start := NameAt(text, p);
    && start < |text|
    && NameStart(a, text[start])
    && (Braced(text, p) ==> NameEnd(a, text, start) < |text| && Closes(text[NameEnd(a, text, start)]))
  }

  /** Position `p` begins a reference: an odd run of dollar signs ends right
      before it, and a well-formed name follows.
    */
  predicate Refers(a: Alphabet, text: string, p: nat)
    requires p <= |text|
  {
    DollarsBefore(text, p) % 2 == 1 && WellFormed(a, text, p)
  }

  function Name(a: Alphabet, text: string, p: nat): (name: string)
    requires p <= |text|
  {
    text[NameAt(text, p)..NameEnd(a, text, NameAt(text, p))]
  }

  datatype Option<T> = None | Some(value: T)

  /** What position `p` contributes on its own. */
  function Mark(a: Alphabet, text: string, p: nat): Option<string>
    requires p <= |text|
  {
    if Refers(a, text, p) then Some(Name(a, text, p)) else None
  }

  function MarksFrom(a: Alphabet, text: string, p: nat): (marks: seq<Option<string>>)
    requires p <= |text| + 1
    ensures |marks| == |text| + 1 - p
    ensures forall q: nat {:trigger Mark(a, text, q)} :: p <= q <= |text| ==> marks[q - p] == Mark(a, text, q)
    decreases |text| + 1 - p
  {
    if p > |text| then [] else [Mark(a, text, p)] + MarksFrom(a, text, p + 1)
  }

  /** The marks of all positions, the end of the text included. */
  function Marks(a: Alphabet, text: string): (marks: seq<Option<string>>)
    ensures |marks| == |text| + 1
    ensures forall q: nat {:trigger Mark(a, text, q)} :: q <= |text| ==> marks[q] == Mark(a, text, q)
  {
    MarksFrom(a, text, 0)
  }

  /** The names among the marks, in order. */
  function Names(marks: seq<Option<string>>): seq<string> {
    if marks == [] then []
    else if marks[0].Some? then [marks[0].value] + Names(marks[1..])
    else Names(marks[1..])
  }

  /** The names referred to, in text order. */
  function References(a: Alphabet, text: string): seq<string> {
    Names(Marks(a, text))
  }

  /** The places of the marks that hold a name, counted from `first`. */
  function Places(marks: seq<Option<string>>, first: nat): seq<nat> {
    if marks == [] then []
    else if marks[0].Some? then [first] + Places(marks[1..], first + 1)
    else Places(marks[1..], first + 1)
  }

  lemma {:induction false} PlacesExact(marks: seq<Option<string>>, first: nat, p: nat)
    ensures p in Places(marks, first) <==> first <= p < first + |marks| && marks[p - first].Some?
    decreases |marks|
  {
    if marks != [] {
      PlacesExact(marks[1..], first + 1, p);
    }
  }

  lemma {:induction false} PlacesAscend(marks: seq<Option<string>>, first: nat)
    ensures forall k :: 0 <= k < |Places(marks, first)| ==> first <= Places(marks, first)[k]
    ensures forall j, k :: 0 <= j < k < |Places(marks, first)| ==> Places(marks, first)[j] < Places(marks, first)[k]
    decreases |marks|
  {
    if marks != [] {
      PlacesAscend(marks[1..], first + 1);
    }
  }

  lemma {:induction false} AsManyNames(marks: seq<Option<string>>, first: nat)
    ensures |Names(marks)| == |Places(marks, first)|
    decreases |marks|
  {
    if marks != [] {
      AsManyNames(marks[1..], first + 1);
    }
  }

  lemma {:induction false} NameAtPlace(marks: seq<Option<string>>, first: nat, k: nat)
    requires k < |Names(marks)| && k < |Places(marks, first)|
    ensures first <= Places(marks, first)[k] < first + |marks|
    ensures marks[Places(marks, first)[k] - first] == Some(Names(marks)[k])
    decreases |marks|
  {
    if marks != [] {
      if marks[0].None? {
        NameAtPlace(marks[1..], first + 1, k);
      } else if k > 0 {
        NameAtPlace(marks[1..], first + 1, k - 1);
      }
    }
  }

  /** The references are exactly what the specification asks for: there are
      positions in ascending order, namely all those that refer, and the k-th
      name is the name at the k-th of them.
    */
  lemma ReferencesExact(a: Alphabet, text: string)
    ensures var at := Places(Marks(a, text), 0);
      && (forall p: nat :: p in at <==> p <= |text| && Refers(a, text, p))
      && (forall j, k :: 0 <= j < k < |at| ==> at[j] < at[k])
      && |References(a, text)| == |at|
      && (forall k :: 0 <= k < |at| ==> at[k] <= |text| && References(a, text)[k] == Name(a, text, at[k]))
  {
    var marks := Marks(a, text);
    var at := Places(marks, 0);
    PlacesAscend(marks, 0);
    AsManyNames(marks, 0);
    forall p: nat
      ensures p in at <==> p <= |text| && Refers(a, text, p)
    {
      PlacesExact(marks, 0, p);
      if p <= |text| {
        assert marks[p] == Mark(a, text, p);
      }
    }
    forall k | 0 <= k < |at|
      ensures at[k] <= |text| && References(a, text)[k] == Name(a, text, at[k])
    {
      NameAtPlace(marks, 0, k);
      assert marks[at[k]] == Mark(a, text, at[k]);
    }
  }

  // -------------------------------------------------------------------- the scan

  lemma NamesFrom(marks: seq<Option<string>>, k: nat)
    requires k < |marks|
    ensures Names(marks[k..]) == if marks[k].Some? then [marks[k].value] + Names(marks[k + 1..]) else Names(marks[k + 1..])
  {
    assert marks[k..][0] == marks[k] && marks[k..][1..] == marks[k + 1..];
  }

  /** A stretch without names can be passed over. */
  lemma {:induction false} PassOver(marks: seq<Option<string>>, k: nat, end: nat)
    requires k <= end <= |marks|
    requires forall p :: k <= p < end ==> marks[p] == None
    ensures Names(marks[k..]) == Names(marks[end..])
    decreases end
  {
    if k < end {
      PassOver(marks, k, end - 1);
      NamesFrom(marks, end - 1);
    }
  }

  /** What is still to be reported when the scan stands on `index`: the names
      that follow it.
    */
  function Pending(a: Alphabet, text: string, index: nat): seq<string>
    requires index <= |text|
  {
    Names(Marks(a, text)[index + 1..])
  }

  lemma PendingAtTheEnds(a: Alphabet, text: string)
    ensures Pending(a, text, 0) == References(a, text)
    ensures Pending(a, text, |text|) == []
  {
    var marks := Marks(a, text);
    EvenIsQuiet(a, text, 0);
    PassOver(marks, 0, 1);
    assert marks[0..] == marks && marks[|text| + 1..] == [];
  }

  lemma NameThenQuiet(marks: seq<Option<string>>, k: nat, end: nat, name: string)
    requires k <= end < |marks| && marks[k] == Some(name)
    requires forall p :: k < p <= end ==> marks[p] == None
    ensures Names(marks[k..]) == [name] + Names(marks[end + 1..])
  {
    NamesFrom(marks, k);
    PassOver(marks, k + 1, end + 1);
  }

  /** The scanning loop of `_interpolation_references`. The loop keeps an even
      number of dollar signs behind every dollar sign it stands on, and each
      branch moves the index forward.
    */
  method InterpolationReferences(a: Alphabet, value: string) returns (references: seq<string>)
    requires Proper(a)
    ensures references == References(a, value)
  {
    PendingAtTheEnds(a, value);
    references := [];
    var index := 0;
    while index < |value|
      invariant index <= |value|
      invariant index < |value| && value[index] == '$' ==> DollarsBefore(value, index) % 2 == 0
      invariant references + Pending(a, value, index) == References(a, value)
      decreases |value| - index
    {
      if value[index] != '$' {
        PlainPending(a, value, index);
        index := index + 1;
        continue;
      }
      if index + 1 < |value| && value[index + 1] == '$' {
        EscapePending(a, value, index);
        index := index + 2;
        continue;
      }
      var start := if index + 1 < |value| && value[index + 1] == '{' then index + 2 else index + 1;
      assert start == NameAt(value, index + 1);
      if start >= |value| || !NameStart(a, value[start]) {
        MalformedPending(a, value, index);
        index := index + 1;
        continue;
      }
      var end := ScanName(a, value, start);
      if && index + 1 < |value|
         && value[index + 1] == '{'
         && (end >= |value| || !Closes(value[end]))
      {
        MalformedPending(a, value, index);
        index := index + 1;
        continue;
      }
      NamePending(a, value, index, start, end);
      references := references + [value[start..end]];
      index := end;
    }
  }

  /** The inner loop over the characters of a name. */
  method ScanName(a: Alphabet, value: string, start: nat) returns (end: nat)
    requires start <= |value|
    ensures end == NameEnd(a, value, start)
  {
    end := start;
    while end < |value| && NameChar(a, value[end])
      invariant start <= end <= |value|
      invariant NameEnd(a, value, end) == NameEnd(a, value, start)
    {
      end := end + 1;
    }
  }

  lemma EvenIsQuiet(a: Alphabet, text: string, p: nat)
    requires p <= |text| && DollarsBefore(text, p) % 2 == 0
    ensures Marks(a, text)[p] == None
  {
    assert Mark(a, text, p) == None;
  }

  lemma PlainPending(a: Alphabet, text: string, index: nat)
    requires index < |text| && text[index] != '$'
    ensures Pending(a, text, index) == Pending(a, text, index + 1)
    ensures DollarsBefore(text, index + 1) == 0
  {
    EvenIsQuiet(a, text, index + 1);
    PassOver(Marks(a, text), index + 1, index + 2);
  }

  /** A dollar sign without a well-formed name behind it is passed over. */
  lemma MalformedPending(a: Alphabet, text: string, index: nat)
    requires index < |text| && !WellFormed(a, text, index + 1)
    ensures Pending(a, text, index) == Pending(a, text, index + 1)
  {
    assert Mark(a, text, index + 1) == None;
    PassOver(Marks(a, text), index + 1, index + 2);
  }

  /** Two dollar signs leave the parity of their run as it was. */
  lemma EscapePending(a: Alphabet, text: string, index: nat)
    requires Proper(a)
    requires index + 1 < |text| && text[index] == text[index + 1] == '$'
    requires DollarsBefore(text, index) % 2 == 0
    ensures Pending(a, text, index) == Pending(a, text, index + 2)
    ensures DollarsBefore(text, index + 2) == DollarsBefore(text, index) + 2
  {
    assert !NameStart(a, '$');
    MalformedPending(a, text, index);
    assert DollarsBefore(text, index + 2) == DollarsBefore(text, index + 1) + 1;
    EvenIsQuiet(a, text, index + 2);
    PassOver(Marks(a, text), index + 2, index + 3);
  }

  /** A well-formed name behind an odd run is a reference, and nothing inside
      the name is.
    */
  lemma NamePending(a: Alphabet, text: string, index: nat, start: nat, end: nat)
    requires Proper(a)
    requires index < |text| && text[index] == '$' && DollarsBefore(text, index) % 2 == 0
    requires WellFormed(a, text, index + 1)
    requires start == NameAt(text, index + 1) && end == NameEnd(a, text, start)
    ensures index < start < end <= |text|
    ensures Pending(a, text, index) == [text[start..end]] + Pending(a, text, end)
    ensures end < |text| ==> DollarsBefore(text, end) == 0
  {
    NameIsMarked(a, text, index, start, end);
    NameThenQuiet(Marks(a, text), index + 1, end, text[start..end]);
  }

  lemma NameIsMarked(a: Alphabet, text: string, index: nat, start: nat, end: nat)
    requires Proper(a)
    requires index < |text| && text[index] == '$' && DollarsBefore(text, index) % 2 == 0
    requires WellFormed(a, text, index + 1)
    requires start == NameAt(text, index + 1) && end == NameEnd(a, text, start)
    ensures index < start < end <= |text|
    ensures Marks(a, text)[index + 1] == Some(text[start..end])
    ensures forall p :: index + 2 <= p <= end ==> Marks(a, text)[p] == None
    ensures end < |text| ==> DollarsBefore(text, end) == 0
  {
    NameHasNoDollar(a, text, index, start, end);
    OddIsMarked(a, text, index + 1);
    forall p | index + 2 <= p <= end
      ensures Marks(a, text)[p] == None
    {
      EvenIsQuiet(a, text, p);
    }
  }

  lemma OddIsMarked(a: Alphabet, text: string, p: nat)
    requires p <= |text| && DollarsBefore(text, p) % 2 == 1 && WellFormed(a, text, p)
    ensures Marks(a, text)[p] == Some(Name(a, text, p))
  {
    assert Mark(a, text, p) == Some(Name(a, text, p));
  }

  lemma NameHasNoDollar(a: Alphabet, text: string, index: nat, start: nat, end: nat)
    requires Proper(a)
    requires index < |text| && text[index] == '$' && WellFormed(a, text, index + 1)
    requires start == NameAt(text, index + 1) && end == NameEnd(a, text, start)
    ensures index < start < end
    ensures forall p :: index + 2 <= p <= end ==> DollarsBefore(text, p) == 0
  {
    NameEndIsMaximal(a, text, start);
    forall p | index + 2 <= p <= end
      ensures DollarsBefore(text, p) == 0
    {
      assert text[p - 1] != '$';
    }
  }

  // ------------------------------------------------------------------ two laws

  /** The text in which every dollar sign is written twice. */
  function Escape(text: string): (escaped: string)
    ensures |escaped| >= |text|
  {
    if text == [] then "" else (if text[0] == '$' then "$$" else [text[0]]) + Escape(text[1..])
  }

  /** Text behind something that does not end in a dollar sign is read the same
      on its own.
    */
  lemma ReadsAlone(a: Alphabet, before: string, text: string)
    requires before == [] || before[|before| - 1] != '$'
    ensures Marks(a, before + text)[|before|..] == Marks(a, text)
  {
    forall p | 0 <= p <= |text|
      ensures Marks(a, before + text)[|before| + p] == Marks(a, text)[p]
    {
      SameDollars(before, text, p);
      SameWellFormed(a, before, text, p);
      assert Mark(a, before + text, |before| + p) == Mark(a, text, p);
    }
  }

  lemma {:induction false} SameDollars(before: string, text: string, from: nat)
    requires from <= |text|
    requires before == [] || before[|before| - 1] != '$'
    ensures DollarsBefore(before + text, |before| + from) == DollarsBefore(text, from)
    decreases from
  {
    if from > 0 {
      assert (before + text)[|before| + from - 1] == text[from - 1];
      SameDollars(before, text, from - 1);
    }
  }

  lemma {:induction false} SameNameEnd(a: Alphabet, before: string, text: string, from: nat)
    requires from <= |text|
    ensures NameEnd(a, before + text, |before| + from) == |before| + NameEnd(a, text, from)
    decreases |text| - from
  {
    if from < |text| {
      assert (before + text)[|before| + from] == text[from];
      SameNameEnd(a, before, text, from + 1);
    }
  }

  lemma SameWellFormed(a: Alphabet, before: string, text: string, from: nat)
    requires from <= |text|
    ensures WellFormed(a, before + text, |before| + from) == WellFormed(a, text, from)
    ensures WellFormed(a, text, from) ==> Name(a, before + text, |before| + from) == Name(a, text, from)
  {
    var all := before + text;
    assert forall k :: 0 <= k < |text| ==> all[|before| + k] == text[k];
    SameNameEnd(a, before, text, NameAt(text, from));
    assert NameAt(all, |before| + from) == |before| + NameAt(text, from);
  }

  /** The escape law: a text whose dollar signs are all doubled refers to nothing. */
  lemma EscapedIsLiteral(a: Alphabet, text: string)
    requires Proper(a)
    ensures References(a, Escape(text)) == []
  {
    var escaped := Escape(text);
    var marks := Marks(a, escaped);
    forall p | 0 <= p < |marks|
      ensures marks[p] == None
    {
      if p < |escaped| && escaped[p] == '$' {
        assert !NameStart(a, '$');
      } else {
        EscapedRuns(text, p);
      }
      assert Mark(a, escaped, p) == None;
    }
    PassOver(marks, 0, |marks|);
    assert marks[0..] == marks;
  }

  /** In an escaped text every run of dollar signs that has ended is even. */
  lemma {:induction false} EscapedRuns(text: string, p: nat)
    requires p <= |Escape(text)|
    requires p == |Escape(text)| || Escape(text)[p] != '$'
    ensures DollarsBefore(Escape(text), p) % 2 == 0
    decreases |text|
  {
    if text != [] {
      var head := if text[0] == '$' then "$$" else [text[0]];
      var rest := Escape(text[1..]);
      assert Escape(text) == head + rest;
      if p >= |head| {
        assert p < |Escape(text)| ==> Escape(text)[p] == rest[p - |head|];
        EscapedRuns(text[1..], p - |head|);
        if text[0] == '$' {
          DollarsAfterPair(rest, p - 2);
        } else {
          SameDollars(head, rest, p - 1);
        }
      }
    }
  }

  lemma {:induction false} DollarsAfterPair(rest: string, p: nat)
    requires p <= |rest|
    ensures DollarsBefore("$$" + rest, p + 2) == DollarsBefore(rest, p) + (if DollarsBefore(rest, p) == p then 2 else 0)
    decreases p
  {
    var all := "$$" + rest;
    if p == 0 {
      assert all[1] == '$' && all[0] == '$';
      assert DollarsBefore(all, 1) == 1;
    } else {
      assert all[p + 1] == rest[p - 1];
      DollarsAfterPair(rest, p - 1);
    }
  }

  /** The default of a braced reference is itself interpolated: after the name
      and its sign, the rest of the text is read as if it stood alone.
    */
  lemma DefaultsAreRead(a: Alphabet, name: string, sign: char, rest: string)
    requires Proper(a)
    requires name != [] && NameStart(a, name[0]) && forall k :: 0 <= k < |name| ==> NameChar(a, name[k])
    requires Closes(sign)
    ensures References(a, "${" + name + [sign] + rest) == [name] + References(a, rest)
  {
    var opening := "${" + name + [sign];
    var text := opening + rest;
    var end := 2 + |name|;
    var marks := Marks(a, text);
    OpeningIsRead(a, name, sign, rest);
    ReadsAlone(a, opening, rest);
    PassOver(marks, 0, 1);
    NameThenQuiet(marks, 1, end, name);
    assert marks[0..] == marks;
  }

  lemma OpeningIsRead(a: Alphabet, name: string, sign: char, rest: string)
    requires Proper(a)
    requires name != [] && NameStart(a, name[0]) && forall k :: 0 <= k < |name| ==> NameChar(a, name[k])
    requires Closes(sign)
    ensures var text := "${" + name + [sign] + rest;
      && Marks(a, text)[0] == None
      && Marks(a, text)[1] == Some(name)
      && forall p :: 2 <= p <= 2 + |name| ==> Marks(a, text)[p] == None
  {
    var text := "${" + name + [sign] + rest;
    var end := 2 + |name|;
    assert text[0] == '$' && text[1] == '{' && text[2] == name[0];
    assert forall k :: 0 <= k < |name| ==> text[2 + k] == name[k];
    assert text[end] == sign && !NameChar(a, sign);
    NameRun(a, text, 2, end);
    assert DollarsBefore(text, 0) == 0 && DollarsBefore(text, 1) == 1;
    EvenIsQuiet(a, text, 0);
    assert text[2..end] == name;
    NameIsMarked(a, text, 0, 2, end);
  }

  lemma {:induction false} NameRun(a: Alphabet, text: string, from: nat, end: nat)
    requires from <= end < |text|
    requires forall k :: from <= k < end ==> NameChar(a, text[k])
    requires !NameChar(a, text[end])
    ensures NameEnd(a, text, from) == end
    decreases |text| - from
  {
    if from < end {
      NameRun(a, text, from + 1, end);
    }
  }

  // -------------------------------------------------------- the notation itself

  /** A name: a letter or underscore, and letters, digits and underscores. */
  ghost predicate IsName(a: Alphabet, name: string) {
    && name != [] && (a.letter(name[0]) || name[0] == '_')
    && forall i :: 0 <= i < |name| ==> a.alnum(name[i]) || name[i] == '_'
  }

  lemma {:induction false} NameEndsAt(a: Alphabet, text: string, from: nat, end: nat)
    requires from <= end <= |text|
    requires forall k :: from <= k < end ==> a.alnum(text[k]) || text[k] == '_'
    requires end < |text| ==> !a.alnum(text[end]) && text[end] != '_'
    ensures NameEnd(a, text, from) == end
    decreases end - from
  {
    if from < end {
      NameEndsAt(a, text, from + 1, end);
    }
  }

  lemma OneDollar(before: string, after: string)
    requires before != [] ==> before[|before| - 1] != '$'
    ensures DollarsBefore(before + "$" + after, |before| + 1) == 1
  {
    var text, p := before + "$" + after, |before| + 1;
    assert text[p - 1] == '$';
    assert p > 1 ==> text[p - 2] == before[|before| - 1];
    assert DollarsBefore(text, p - 1) == 0;
  }

  /** A name in braces is a reference, one dollar sign before it, if it is closed
      by a brace or followed by one of the four signs of a default, an error
      or a replacement; anything else that ends the name makes it plain text. */
  lemma BracedNameRefers(a: Alphabet, before: string, name: string, sign: char, rest: string)
    requires Proper(a) && IsName(a, name) && (before != [] ==> before[|before| - 1] != '$')
    requires !a.alnum(sign) && sign != '_'
    ensures
      var text, p := before + "${" + name + [sign] + rest, |before| + 1;
      && (Mark(a, text, p).Some? <==> sign == '}' || sign == ':' || sign == '?' || sign == '+' || sign == '-')
      && (Mark(a, text, p).Some? ==> Mark(a, text, p).value == name)
  {
    var text, p := before + "${" + name + [sign] + rest, |before| + 1;
    assert text == before + "$" + ("{" + name + [sign] + rest);
    OneDollar(before, "{" + name + [sign] + rest);
    assert text[p] == '{' && text[p + 1 + |name|] == sign;
    assert text[p + 1..p + 1 + |name|] == name;
    BracedNameIsMarked(a, text, p, p + 1 + |name|);
  }

  lemma BracedNameIsMarked(a: Alphabet, text: string, p: nat, end: nat)
    requires p + 1 < end < |text| && text[p] == '{' && DollarsBefore(text, p) == 1
    requires Proper(a) && IsName(a, text[p + 1..end]) && !a.alnum(text[end]) && text[end] != '_'
    ensures Mark(a, text, p) ==
      (var sign := text[end];
       if sign == '}' || sign == ':' || sign == '?' || sign == '+' || sign == '-' then Some(text[p + 1..end]) else None)
  {
    forall k | p + 1 <= k < end ensures a.alnum(text[k]) || text[k] == '_' {
      assert text[k] == text[p + 1..end][k - p - 1];
    }
    NameEndsAt(a, text, p + 1, end);
    assert NameAt(text, p) == p + 1 && text[p + 1] == text[p + 1..end][0];
  }

  /** Without braces a name is a reference wherever it ends. */
  lemma PlainNameRefers(a: Alphabet, before: string, name: string, rest: string)
    requires Proper(a) && IsName(a, name) && (before != [] ==> before[|before| - 1] != '$')
    requires rest != [] ==> !a.alnum(rest[0]) && rest[0] != '_'
    ensures Mark(a, before + "$" + name + rest, |before| + 1) == Some(name)
  {
    var text, p := before + "$" + name + rest, |before| + 1;
    assert text == before + "$" + (name + rest);
    OneDollar(before, name + rest);
    assert text[p] == name[0];
    forall i | 0 <= i < |name| ensures text[p + i] == name[i] {
    }
    NameEndsAt(a, text, p, p + |name|);
    assert text[p..p + |name|] == name;
  }
}
