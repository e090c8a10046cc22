/** Project slugs (shared/project_slug.py) and the recovery of a slug from the
    names Docker and the file system report (scripts/clean_live_tests.py).

    Lower-casing is a parameter, applied character by character; nothing is asked
    of it but that it leaves slug characters and dashes alone.
  */
module ProjectSlug {

  datatype Option<T> = None | Some(value: T)

  datatype Result<T> = Ok(value: T) | ValueError(text: string)

  const MAX_LENGTH: nat := 40
  const HEX_LENGTH: nat := 32

  predicate Letter(c: char) {
    'a' <= c <= 'z'
  }

  predicate SlugChar(c: char) {
    Letter(c) || '0' <= c <= '9'
  }

  predicate HexChar(c: char) {
    '0' <= c <= '9' || 'a' <= c <= 'f'
  }

  predicate IsHex(id: string) {
    |id| == HEX_LENGTH && forall k :: 0 <= k < |id| ==> HexChar(id[k])
  }

  ghost predicate Proper(lower: char -> string) {
    forall c :: SlugChar(c) || c == '-' ==> lower(c) == [c]
  }

  function Lowered(lower: char -> string, s: string): string {
    if s == "" then "" else lower(s[0]) + Lowered(lower, s[1..])
  }

  // ----------------------------------------------------------------- slugifying

  /** Every run of characters other than slug characters becomes one dash. */
  function Dashed(s: string): string {
    if s == "" then ""
    else if SlugChar(s[0]) then [s[0]] + Dashed(s[1..])
    else if |s| > 1 && !SlugChar(s[1]) then Dashed(s[1..])
    else "-" + Dashed(s[1..])
  }

  /** Every run of dashes becomes one dash. */
  function Collapsed(s: string): string {
    if s == "" then ""
    else if |s| > 1 && s[0] == s[1] == '-' then Collapsed(s[1..])
    else [s[0]] + Collapsed(s[1..])
  }

  function StripLeft(s: string): string {
    if s != "" && s[0] == '-' then StripLeft(s[1..]) else s
  }

  function StripRight(s: string): (r: string)
    ensures |r| <= |s|
  {
    if s == "" then ""
    else
      var rest := StripRight(s[1..]);
      if rest == "" && s[0] == '-' then "" else [s[0]] + rest
  }

  function Strip(s: string): string {
    StripLeft(StripRight(s))
  }

  function Slugify(lower: char -> string, title: string): string {
    Strip(Collapsed(Dashed(Lowered(lower, title))))
  }

  // ------------------------------------------------------ what a slug consists of

  /** The maximal runs of slug characters of a text, in order. */
  function Words(s: string): (words: seq<string>)
    ensures s != "" && SlugChar(s[0]) ==> words != []
  {
    if s == "" then []
    else
      var rest := Words(s[1..]);
      if !SlugChar(s[0]) then rest
      else if |s| > 1 && SlugChar(s[1]) then [[s[0]] + rest[0]] + rest[1..]
      else [[s[0]]] + rest
  }

  function Join(words: seq<string>): string {
    if words == [] then ""
    else if |words| == 1 then words[0]
    else words[0] + "-" + Join(words[1..])
  }

  predicate Word(w: string) {
    w != "" && forall k :: 0 <= k < |w| ==> SlugChar(w[k])
  }

  predicate AllWords(words: seq<string>) {
    forall i :: 0 <= i < |words| ==> Word(words[i])
  }

  lemma {:induction false} WordsAreWords(s: string)
    ensures AllWords(Words(s))
  {
    if s != "" {
      WordsAreWords(s[1..]);
    }
  }

  lemma {:induction false} DashedIsCollapsed(s: string)
    ensures Collapsed(Dashed(s)) == Dashed(s)
    ensures (Dashed(s) == "") == (s == "")
    ensures s != "" ==> (Dashed(s)[0] == '-') == !SlugChar(s[0])
  {
    if s != "" {
      DashedIsCollapsed(s[1..]);
      var head := if SlugChar(s[0]) then [s[0]] else "-";
      if SlugChar(s[0]) || |s| == 1 || SlugChar(s[1]) {
        assert Dashed(s) == head + Dashed(s[1..]);
        assert Dashed(s)[1..] == Dashed(s[1..]);
      }
    }
  }

  /** The right end of a text is stripped on its own if anything of it is left. */
  lemma {:induction false} StripRightOfTail(head: string, tail: string)
    requires StripRight(tail) != "" || (head != "" && head[|head| - 1] != '-')
    ensures StripRight(head + tail) == head + StripRight(tail)
    decreases |head|
  {
    if head == "" {
      assert head + tail == tail;
    } else {
      assert (head + tail)[1..] == head[1..] + tail;
      if StripRight(tail) != "" || |head| > 1 {
        assert |head| > 1 ==> head[1..][|head| - 2] == head[|head| - 1];
        StripRightOfTail(head[1..], tail);
        assert head == [head[0]] + head[1..];
        assert StripRight(head[1..] + tail) == head[1..] + StripRight(tail);
      } else {
        assert head[1..] + tail == tail;
      }
    }
  }

  lemma JoinStep(c: char, words: seq<string>)
    requires words != []
    ensures Join([[c] + words[0]] + words[1..]) == [c] + Join(words)
    ensures Join([[c]] + words) == [c] + "-" + Join(words)
  {
    assert ([[c] + words[0]] + words[1..])[1..] == words[1..];
    assert ([[c]] + words)[1..] == words;
  }

  lemma {:induction false} JoinNotEmpty(words: seq<string>)
    requires AllWords(words) && words != []
    ensures Join(words) != "" && SlugChar(Join(words)[0]) && SlugChar(Join(words)[|Join(words)| - 1])
  {
    assert Word(words[0]);
    if |words| > 1 {
      JoinNotEmpty(words[1..]);
    }
  }

  /** A dash in front of a text that begins with a word, when it holds one. */
  function Lead(s: string): string {
    if s != "" && !SlugChar(s[0]) && Words(s) != [] then "-" else ""
  }

  lemma CharStays(c: char, tail: string)
    requires c != '-' || StripRight(tail) != ""
    ensures StripRight([c] + tail) == [c] + StripRight(tail)
  {
    assert ([c] + tail)[1..] == tail;
  }

  lemma JoinAfterFirst(s: string)
    requires s != "" && SlugChar(s[0])
    ensures Join(Words(s)) == [s[0]] + (Lead(s[1..]) + Join(Words(s[1..])))
  {
    var t := s[1..];
    if Words(t) == [] {
      assert Words(s) == [[s[0]]];
    } else {
      JoinStep(s[0], Words(t));
      assert t != "" && t[0] == s[1];
      assert [s[0]] + "-" + Join(Words(t)) == [s[0]] + ("-" + Join(Words(t)));
    }
  }

  lemma WordFirst(s: string)
    requires s != "" && SlugChar(s[0]) && StripRight(Dashed(s[1..])) == Lead(s[1..]) + Join(Words(s[1..]))
    ensures StripRight(Dashed(s)) == Lead(s) + Join(Words(s))
  {
    CharStays(s[0], Dashed(s[1..]));
    JoinAfterFirst(s);
    assert Lead(s) == "";
  }

  lemma DashBeforeWord(s: string)
    requires s != "" && !SlugChar(s[0]) && (|s| == 1 || SlugChar(s[1]))
    requires StripRight(Dashed(s[1..])) == Lead(s[1..]) + Join(Words(s[1..]))
    ensures StripRight(Dashed(s)) == Lead(s) + Join(Words(s))
  {
    var t := s[1..];
    assert Words(s) == Words(t);
    if t != "" {
      WordsAreWords(t);
      JoinNotEmpty(Words(t));
      assert Lead(t) == "" && StripRight(Dashed(t)) == Join(Words(t));
      CharStays('-', Dashed(t));
    }
  }

  lemma {:induction false} DashedKeepsWords(s: string)
    ensures StripRight(Dashed(s)) == Lead(s) + Join(Words(s))
  {
    if s != "" {
      DashedKeepsWords(s[1..]);
      if SlugChar(s[0]) {
        WordFirst(s);
      } else if |s| == 1 || SlugChar(s[1]) {
        DashBeforeWord(s);
      }
    }
  }

  /** A slug is the words of the lower-cased title with one dash between them. */
  lemma SlugifyJoinsWords(lower: char -> string, title: string)
    ensures Slugify(lower, title) == Join(Words(Lowered(lower, title)))
  {
    var s := Lowered(lower, title);
    var words := Words(s);
    DashedIsCollapsed(s);
    DashedKeepsWords(s);
    WordsAreWords(s);
    if words != [] {
      JoinNotEmpty(words);
      assert StripLeft(Join(words)) == Join(words);
      assert ("-" + Join(words))[1..] == Join(words);
      assert StripLeft("-" + Join(words)) == Join(words);
      assert "" + Join(words) == Join(words);
    }
  }

  lemma {:induction false} WordsOfConcat(s: string, c: char, t: string)
    requires !SlugChar(c)
    ensures Words(s + [c] + t) == Words(s) + Words(t)
    decreases |s|
  {
    if s == "" {
      assert ([c] + t)[1..] == t;
      assert s + [c] + t == [c] + t;
    } else {
      WordsOfConcat(s[1..], c, t);
      var all := s + [c] + t;
      assert all[1..] == s[1..] + [c] + t;
      assert |s| > 1 ==> all[1] == s[1];
      assert |s| == 1 ==> all[1] == c;
    }
  }

  lemma {:induction false} WordsOfWord(w: string)
    requires Word(w)
    ensures Words(w) == [w]
  {
    if |w| > 1 {
      assert Word(w[1..]);
      WordsOfWord(w[1..]);
      assert [w[0]] + w[1..] == w;
    } else {
      assert w == [w[0]] && w[1..] == "";
    }
  }

  lemma {:induction false} WordsOfJoin(words: seq<string>)
    requires AllWords(words)
    ensures Words(Join(words)) == words
  {
    if words != [] {
      assert Word(words[0]);
      WordsOfWord(words[0]);
      if |words| > 1 {
        WordsOfJoin(words[1..]);
        WordsOfConcat(words[0], '-', Join(words[1..]));
        assert [words[0]] + words[1..] == words;
      } else {
        assert words == [words[0]];
      }
    }
  }

  lemma {:induction false} SlugTextIsLower(lower: char -> string, s: string)
    requires Proper(lower)
    requires forall k :: 0 <= k < |s| ==> SlugChar(s[k]) || s[k] == '-'
    ensures Lowered(lower, s) == s
  {
    if s != "" {
      SlugTextIsLower(lower, s[1..]);
      assert lower(s[0]) == [s[0]];
    }
  }

  lemma {:induction false} JoinIsSlugText(words: seq<string>)
    requires AllWords(words)
    ensures forall k :: 0 <= k < |Join(words)| ==> SlugChar(Join(words)[k]) || Join(words)[k] == '-'
  {
    if words != [] {
      assert Word(words[0]);
      if |words| > 1 {
        JoinIsSlugText(words[1..]);
      }
    }
  }

  /** Slugifying a slug changes nothing. */
  lemma SlugifyIsIdempotent(lower: char -> string, title: string)
    requires Proper(lower)
    ensures Slugify(lower, Slugify(lower, title)) == Slugify(lower, title)
  {
    var words := Words(Lowered(lower, title));
    SlugifyJoinsWords(lower, title);
    WordsAreWords(Lowered(lower, title));
    JoinIsSlugText(words);
    SlugTextIsLower(lower, Join(words));
    SlugifyJoinsWords(lower, Join(words));
    WordsOfJoin(words);
  }

  // ----------------------------------------------------------------- generating

  /** PROJECT_SLUG_PATTERN. */
  predicate MatchesPattern(slug: string) {
    && slug != ""
    && Letter(slug[0])
    && forall k :: 0 <= k < |slug| ==> SlugChar(slug[k]) || slug[k] == '-'
  }

  function Marker(base: string): string {
    if base != "" && Letter(base[0]) then "" else "p"
  }

  /** How many characters of the base fit in front of the project id. */
  function MaxBase(base: string): nat {
    var marker := Marker(base);
    var reserved := HEX_LENGTH + 1 + if marker == "" then 0 else |marker| + if base != "" then 1 else 0;
    if MAX_LENGTH > reserved then MAX_LENGTH - reserved else 0
  }

  function Cut(s: string, n: nat): string {
    if n <= |s| then s[..n] else s
  }

  function GenerateProjectSlug(lower: char -> string, title: string, id: string): Result<string> {
    var base := Slugify(lower, title);
    var marker := Marker(base);
    var kept := Strip(Cut(base, MaxBase(base)));
    var slug :=
      if marker != "" && kept != "" then marker + "-" + kept + "-" + id
      else if marker != "" then marker + "-" + id
      else kept + "-" + id;
    if MatchesPattern(slug) then Ok(slug) else ValueError(slug)
  }

  function RemoveSuffix(s: string, suffix: string): string {
    if |suffix| <= |s| && s[|s| - |suffix|..] == suffix then s[..|s| - |suffix|] else s
  }

  const ZERO_ID: string := "00000000000000000000000000000000"

  function ProjectSlugPrefix(lower: char -> string, prefix: string): Result<string> {
    match GenerateProjectSlug(lower, prefix, ZERO_ID)
    case Ok(slug) => Ok(RemoveSuffix(slug, ZERO_ID))
    case ValueError(text) => ValueError(text)
  }

  /** What is left of a base slug after truncation. */
  function Kept(base: string): string {
    Strip(Cut(base, MaxBase(base)))
  }

  /** The part of a slug that precedes the project id, for a base slug. */
  function Stem(base: string): string {
    var kept := Kept(base);
    if base == "" then "p-"
    else if Letter(base[0]) then kept + "-"
    else "p-" + kept + "-"
  }

  /** A base slug: nothing, or a text of slug characters and dashes with a slug
      character at both ends.
    */
  predicate Base(s: string) {
    && (forall k :: 0 <= k < |s| ==> SlugChar(s[k]) || s[k] == '-')
    && (s != "" ==> SlugChar(s[0]) && SlugChar(s[|s| - 1]))
  }

  lemma SlugifyGivesBase(lower: char -> string, title: string)
    ensures Base(Slugify(lower, title))
  {
    var words := Words(Lowered(lower, title));
    SlugifyJoinsWords(lower, title);
    WordsAreWords(Lowered(lower, title));
    JoinIsSlugText(words);
    if words != [] {
      JoinNotEmpty(words);
    }
  }

  lemma {:induction false} StripRightIsPrefix(s: string)
    ensures StripRight(s) <= s
    ensures s != "" && s[0] != '-' ==> StripRight(s) != "" && StripRight(s)[0] == s[0]
  {
    if s != "" {
      StripRightIsPrefix(s[1..]);
    }
  }

  lemma KeptFacts(base: string)
    requires Base(base) && base != ""
    ensures var kept := Kept(base);
      kept != "" && kept <= base && |kept| <= MaxBase(base) && kept == StripRight(Cut(base, MaxBase(base)))
  {
    var cut := Cut(base, MaxBase(base));
    assert cut[0] == base[0];
    StripRightIsPrefix(cut);
    assert cut <= base;
  }

  /** As much of the base is kept as fits in front of the id: seven characters,
      or five behind a marker, without a dash at the cut. */
  lemma KeptExactly(base: string)
    requires Base(base) && base != ""
    ensures
      var fits := if Letter(base[0]) then 7 else 5;
      && MaxBase(base) == fits
      && (|base| <= fits ==> Kept(base) == base)
      && (|base| > fits && base[fits - 1] != '-' ==> Kept(base) == base[..fits])
      && (|base| > fits && base[fits - 1] == '-' && base[fits - 2] != '-' ==> Kept(base) == base[..fits - 1])
  {
    KeptFacts(base);
    var cut := Cut(base, MaxBase(base));
    LastIsKept(cut);
    if cut[|cut| - 1] == '-' {
      LastIsDropped(cut);
      LastIsKept(cut[..|cut| - 1]);
    }
  }

  lemma {:induction false} LastIsKept(s: string)
    ensures s != "" && s[|s| - 1] != '-' ==> StripRight(s) == s
  {
    if |s| > 1 {
      LastIsKept(s[1..]);
    }
  }

  lemma {:induction false} LastIsDropped(s: string)
    requires s != "" && s[|s| - 1] == '-'
    ensures StripRight(s) == StripRight(s[..|s| - 1])
  {
    if |s| > 1 {
      LastIsDropped(s[1..]);
      assert s[1..][..|s[1..]| - 1] == s[..|s| - 1][1..];
    }
  }

  lemma StemFacts(base: string)
    requires Base(base)
    ensures MatchesPattern(Stem(base)) && 2 <= |Stem(base)| <= MAX_LENGTH - HEX_LENGTH
    ensures Stem(base)[|Stem(base)| - 1] == '-'
  {
    if base != "" {
      KeptFacts(base);
    }
  }

  /** Generation never raises, and a slug is the stem of its title followed by
      the project id: it fits in 40 characters and matches the slug pattern.
    */
  lemma GenerationNeverFails(lower: char -> string, title: string, id: string)
    requires IsHex(id)
    ensures GenerateProjectSlug(lower, title, id) == Ok(Stem(Slugify(lower, title)) + id)
    ensures var slug := Stem(Slugify(lower, title)) + id;
      && MatchesPattern(slug) && |slug| <= 40 && slug != "" && 'a' <= slug[0] <= 'z'
      && forall k :: 0 <= k < |slug| ==> 'a' <= slug[k] <= 'z' || '0' <= slug[k] <= '9' || slug[k] == '-'
  {
    var base := Slugify(lower, title);
    SlugifyGivesBase(lower, title);
    StemFacts(base);
    if base != "" {
      KeptFacts(base);
    } else {
      assert Cut(base, MaxBase(base)) == "";
    }
    assert forall k :: 0 <= k < |id| ==> HexChar(id[k]) && SlugChar(id[k]);
    var slug := Stem(base) + id;
    assert MatchesPattern(slug);
    var kept := Kept(base);
    if Marker(base) != "" && kept != "" {
      assert "p" + "-" + kept + "-" + id == slug;
    } else if Marker(base) != "" {
      assert "p" + "-" + id == slug;
    } else {
      assert kept + "-" + id == slug;
    }
  }

  /** Two projects never share a slug, whatever their titles. */
  lemma SlugsAreInjective(lower: char -> string, title: string, id: string, title': string, id': string)
    requires IsHex(id) && IsHex(id')
    requires GenerateProjectSlug(lower, title, id) == GenerateProjectSlug(lower, title', id')
    ensures id == id'
  {
    GenerationNeverFails(lower, title, id);
    GenerationNeverFails(lower, title', id');
    var stem, stem' := Stem(Slugify(lower, title)), Stem(Slugify(lower, title'));
    assert |stem| == |stem'|;
    assert (stem + id)[|stem|..] == id && (stem' + id')[|stem|..] == id';
  }

  lemma PrefixIsStem(lower: char -> string, prefix: string)
    ensures ProjectSlugPrefix(lower, prefix) == Ok(Stem(Slugify(lower, prefix)))
  {
    GenerationNeverFails(lower, prefix, ZERO_ID);
    var stem := Stem(Slugify(lower, prefix));
    assert (stem + ZERO_ID)[|stem|..] == ZERO_ID && (stem + ZERO_ID)[..|stem|] == stem;
  }

  // -------------------------------------------------------------- the prefix law

  /** The base of the title `prefix-rest`. */
  function Extended(base: string, rest: string): string {
    if base == "" then rest else if rest == "" then base else base + "-" + rest
  }

  lemma {:induction false} LoweredConcat(lower: char -> string, s: string, t: string)
    ensures Lowered(lower, s + t) == Lowered(lower, s) + Lowered(lower, t)
    decreases |s|
  {
    if s == "" {
      assert s + t == t;
    } else {
      assert (s + t)[1..] == s[1..] + t;
      LoweredConcat(lower, s[1..], t);
    }
  }

  lemma {:induction false} JoinConcat(words: seq<string>, more: seq<string>)
    requires AllWords(words) && AllWords(more)
    ensures Join(words + more) == Extended(Join(words), Join(more))
  {
    if words == [] {
      assert words + more == more;
    } else if more == [] {
      assert words + more == words;
      JoinNotEmpty(words);
    } else {
      JoinNotEmpty(words);
      JoinNotEmpty(more);
      assert (words + more)[1..] == words[1..] + more;
      JoinConcat(words[1..], more);
      if |words| > 1 {
        assert AllWords(words[1..]);
        JoinNotEmpty(words[1..]);
        calc {
          Join(words + more);
          words[0] + "-" + (Join(words[1..]) + "-" + Join(more));
          Join(words) + "-" + Join(more);
        }
      }
    }
  }

  /** Slugs of titles compose: `prefix-rest` has the words of both parts. */
  lemma SlugifyExtends(lower: char -> string, prefix: string, rest: string)
    requires Proper(lower)
    ensures Slugify(lower, prefix + "-" + rest) == Extended(Slugify(lower, prefix), Slugify(lower, rest))
  {
    var l, r := Lowered(lower, prefix), Lowered(lower, rest);
    LoweredConcat(lower, prefix + "-", rest);
    LoweredConcat(lower, prefix, "-");
    assert lower('-') == ['-'];
    assert Lowered(lower, "-") == lower('-') + Lowered(lower, "-"[1..]);
    assert Lowered(lower, prefix + "-" + rest) == l + ['-'] + r;
    WordsOfConcat(l, '-', r);
    WordsAreWords(l);
    WordsAreWords(r);
    SlugifyJoinsWords(lower, prefix + "-" + rest);
    SlugifyJoinsWords(lower, prefix);
    SlugifyJoinsWords(lower, rest);
    JoinConcat(Words(l), Words(r));
  }

  lemma WholeIsKept(base: string)
    requires Base(base) && base != "" && |base| <= MaxBase(base)
    ensures StripRight(Cut(base, MaxBase(base))) == base
  {
    StripRightOfTail(base, "");
    assert base + "" == base;
    assert Cut(base, MaxBase(base)) == base;
  }

  lemma LoneDash()
    ensures StripRight("-") == ""
  {
  }

  lemma DashGoes(base: string)
    requires base != "" && base[|base| - 1] != '-'
    ensures StripRight(base + "-") == base
  {
    LoneDash();
    StripRightOfTail(base, "-");
  }

  lemma DashStays(base: string, more: string)
    requires base != "" && base[|base| - 1] != '-' && more != "" && more[0] != '-'
    ensures StripRight(base + "-" + more) == base + "-" + StripRight(more) && StripRight(more) != ""
  {
    assert StripRight(more) != "";
    var tail := "-" + more;
    CharStays('-', more);
    StripRightOfTail(base, tail);
    assert base + "-" + more == base + tail;
    assert base + "-" + StripRight(more) == base + StripRight(tail);
  }

  /** The dash before the rest is kept only when something of the rest follows. */
  lemma StripRightAfterDash(base: string, more: string)
    requires base != "" && base[|base| - 1] != '-'
    requires more != "" ==> more[0] != '-'
    ensures StripRight(base + "-" + more) == if more == "" then base else base + "-" + StripRight(more)
    ensures more != "" ==> StripRight(more) != ""
  {
    if more == "" {
      DashGoes(base);
      assert base + "-" + more == base + "-";
    } else {
      DashStays(base, more);
    }
  }

  /** Truncating a base that was extended. */
  lemma ExtendedKept(base: string, rest: string)
    requires Base(base) && Base(rest) && base != "" && rest != ""
    ensures var all := base + "-" + rest;
      && MaxBase(all) == MaxBase(base) && Base(all)
      && (|base| + 1 >= MaxBase(base) ==> Kept(all) == Kept(base))
      && (|base| + 1 < MaxBase(base) ==> Kept(base) == base && base + "-" < Kept(all))
  {
    var n := MaxBase(base);
    var all := base + "-" + rest;
    assert all[0] == base[0] && MaxBase(all) == n;
    KeptFacts(base);
    KeptFacts(all);
    if |base| >= n {
      assert Cut(all, n) == Cut(base, n);
    } else {
      WholeIsKept(base);
      var more := rest[..if n - |base| - 1 <= |rest| then n - |base| - 1 else |rest|];
      assert Cut(all, n) == base + "-" + more;
      StripRightAfterDash(base, more);
    }
  }

  /** The stem of an extended base begins with the stem of the base, and is the
      same one exactly when the base fills the room but for one character.
    */
  lemma ExtendedStem(base: string, rest: string)
    requires Base(base) && Base(rest) && base != ""
    ensures Stem(base) <= Stem(Extended(base, rest))
    ensures rest != "" ==>
      (Stem(base) == Stem(Extended(base, rest)) <==> |base| + 1 >= MaxBase(base))
  {
    if rest != "" {
      ExtendedKept(base, rest);
      assert (base + "-" + rest)[0] == base[0];
    }
  }

  /** Whether the slug of `prefix-rest` begins with the sweep prefix of `prefix`:
      always, as soon as the prefix has a word of its own; otherwise only when
      the rest does not begin with a letter or its first word is "p".
    */
  lemma SlugPrefixLaw(lower: char -> string, prefix: string, rest: string, id: string)
    requires Proper(lower) && IsHex(id)
    ensures ProjectSlugPrefix(lower, prefix).Ok?
    ensures GenerateProjectSlug(lower, prefix + "-" + rest, id).Ok?
    ensures ProjectSlugPrefix(lower, prefix).value <= GenerateProjectSlug(lower, prefix + "-" + rest, id).value
            <==> (var tail := Slugify(lower, rest);
                  || Slugify(lower, prefix) != ""
                  || tail == ""
                  || !Letter(tail[0])
                  || tail == "p"
                  || "p-" <= tail)
  {
    var base, tail := Slugify(lower, prefix), Slugify(lower, rest);
    PrefixIsStem(lower, prefix);
    GenerationNeverFails(lower, prefix + "-" + rest, id);
    SlugifyExtends(lower, prefix, rest);
    SlugifyGivesBase(lower, prefix);
    SlugifyGivesBase(lower, rest);
    if base != "" {
      ExtendedStem(base, tail);
      assert Stem(base) <= Stem(Extended(base, tail)) + id;
    } else if tail != "" && Letter(tail[0]) {
      StemOfLetters(tail);
      var stem := Stem(tail);
      assert (stem + id)[0] == stem[0] && (stem + id)[1] == stem[1];
    }
  }

  lemma StemOfLetters(tail: string)
    requires Base(tail) && tail != "" && Letter(tail[0])
    ensures |Stem(tail)| >= 2 && Stem(tail)[0] == tail[0]
    ensures Stem(tail)[1] == if |tail| == 1 then '-' else tail[1]
  {
    var n := MaxBase(tail);
    assert n == 7;
    KeptFacts(tail);
    if |tail| > 1 && tail[1] != '-' {
      var cut := Cut(tail, n);
      var more := cut[1..];
      StripRightIsPrefix(more);
      assert cut == [tail[0]] + more;
      StripRightOfTail([tail[0]], more);
    }
  }

  /** A sweep prefix is the whole stem of every extended title exactly when the
      prefix alone fills the base up to its last character.
    */
  lemma PrefixIsWholeStem(lower: char -> string, prefix: string)
    requires Proper(lower) && Slugify(lower, prefix) != ""
    ensures (forall rest :: Stem(Slugify(lower, prefix + "-" + rest)) == Stem(Slugify(lower, prefix)))
            <==> |Slugify(lower, prefix)| + 1 >= MaxBase(Slugify(lower, prefix))
  {
    var base := Slugify(lower, prefix);
    SlugifyGivesBase(lower, prefix);
    forall rest
      ensures Slugify(lower, prefix + "-" + rest) == Extended(base, Slugify(lower, rest))
      ensures Base(Slugify(lower, rest))
      ensures Slugify(lower, rest) != "" ==>
        (Stem(base) == Stem(Extended(base, Slugify(lower, rest))) <==> |base| + 1 >= MaxBase(base))
    {
      SlugifyExtends(lower, prefix, rest);
      SlugifyGivesBase(lower, rest);
      ExtendedStem(base, Slugify(lower, rest));
    }
    SlugifyJoinsWords(lower, "x");
    assert lower('x') == "x";
    assert Lowered(lower, "x") == "x";
    assert Words("x") == ["x"];
    assert Slugify(lower, "x") != "";
    assert Stem(Slugify(lower, prefix + "-" + "x")) == Stem(Extended(base, Slugify(lower, "x")));
  }
}
