/** Recovering deployed stack names from what a target reports
    (scripts/clean_live_tests.py, shared/live_harness_cleanup.py): the inverse of
    slug generation, through Docker's container naming.
  */
module StackNames {
  import opened ProjectSlug

  // ----------------------------------------------------------- reading a finding

  /** The text up to the first `c`, and what follows it. */
  function Before(s: string, c: char): string {
    if s == "" || s[0] == c then "" else [s[0]] + Before(s[1..], c)
  }

  function After(s: string, c: char): string {
    if s == "" then "" else if s[0] == c then s[1..] else After(s[1..], c)
  }

  function TrimSlashes(s: string): (r: string)
    decreases |s|
  {
    if s != "" && s[|s| - 1] == '/' then TrimSlashes(s[..|s| - 1]) else s
  }

  /** The part behind the last slash. */
  function LastPart(s: string): (r: string)
    decreases |s|
  {
    if s == "" || s[|s| - 1] == '/' then "" else LastPart(s[..|s| - 1]) + [s[|s| - 1]]
  }

  function Artefact(finding: string): string {
    LastPart(TrimSlashes(After(finding, ' ')))
  }

  // --------------------------------------------------------------- the stack name

  /** The artefact begins with the prefix, each dash kept or replaced by `_`. */
  predicate Tolerates(prefix: string, artefact: string) {
    && |prefix| <= |artefact|
    && forall k :: 0 <= k < |prefix| ==>
                     artefact[k] == prefix[k] || (prefix[k] == '-' && artefact[k] == '_')
  }

  predicate HexFollows(artefact: string, at: nat) {
    at + HEX_LENGTH <= |artefact| && IsHex(artefact[at..at + HEX_LENGTH])
  }

  /** `_STACK_NAME_PATTERN.match`: the first alternative that matches. */
  function MatchStack(prefixes: seq<string>, artefact: string): Option<string> {
    if prefixes == [] then None
    else if Tolerates(prefixes[0], artefact) && HexFollows(artefact, |prefixes[0]|) then
      Some(artefact[..|prefixes[0]| + HEX_LENGTH])
    else MatchStack(prefixes[1..], artefact)
  }

  function Dashes(s: string): (r: string)
    ensures |r| == |s| && forall k :: 0 <= k < |s| ==> r[k] == if s[k] == '_' then '-' else s[k]
  {
    seq(|s|, i requires 0 <= i < |s| => if s[i] == '_' then '-' else s[i])
  }

  function StackName(prefixes: seq<string>, finding: string): Option<string> {
    if Before(finding, ' ') == "directory" then Some(Artefact(finding))
    else match MatchStack(prefixes, Artefact(finding))
      case Some(text) => Some(Dashes(text))
      case None => None
  }

  /** `stack_names_from_residue`. */
  method StackNamesFromResidue(prefixes: seq<string>, findings: seq<string>) returns (names: set<string>)
    ensures forall name :: name in names <==> exists f :: f in findings && StackName(prefixes, f) == Some(name)
  {
    names := {};
    var i := 0;
    while i < |findings|
      invariant i <= |findings|
      invariant forall name :: name in names <==>
          exists k :: 0 <= k < i && StackName(prefixes, findings[k]) == Some(name)
    {
      var artefact := Artefact(findings[i]);
      if Before(findings[i], ' ') == "directory" {
        names := names + {artefact};
      } else {
        var found := MatchStack(prefixes, artefact);
        if found.Some? {
          names := names + {Dashes(found.value)};
        }
      }
      i := i + 1;
    }
  }

  // ------------------------------------------------------------------ round trip

  /** One way Docker may write a slug: each dash kept or replaced by `_`. */
  predicate Renders(slug: string, text: string) {
    |text| == |slug| && Tolerates(slug, text)
  }

  lemma {:induction false} SplitAtSpace(kind: string, rest: string)
    requires ' ' !in kind
    ensures Before(kind + " " + rest, ' ') == kind
    ensures After(kind + " " + rest, ' ') == rest
  {
    var all := kind + " " + rest;
    if kind == "" {
      assert all[1..] == rest;
    } else {
      assert all[1..] == kind[1..] + " " + rest;
      SplitAtSpace(kind[1..], rest);
    }
  }

  lemma {:induction false} LastPartOfName(path: string, name: string)
    requires '/' !in name
    requires path == "" || path[|path| - 1] == '/'
    ensures LastPart(path + name) == name
    decreases |name|
  {
    if name == "" {
      assert path + name == path;
    } else {
      var n := |name| - 1;
      assert (path + name)[..|path + name| - 1] == path + name[..n];
      LastPartOfName(path, name[..n]);
      assert name[..n] + [name[n]] == name;
    }
  }

  lemma {:induction false} TrimSlashesOf(s: string, slashes: string)
    requires s != "" && s[|s| - 1] != '/'
    requires forall k :: 0 <= k < |slashes| ==> slashes[k] == '/'
    ensures TrimSlashes(s + slashes) == s
    decreases |slashes|
  {
    if slashes == "" {
      assert s + slashes == s;
    } else {
      var n := |slashes| - 1;
      assert (s + slashes)[|s + slashes| - 1] == slashes[n];
      assert (s + slashes)[..|s + slashes| - 1] == s + slashes[..n];
      TrimSlashesOf(s, slashes[..n]);
    }
  }

  /** The name at the end of a reported path, whatever slashes follow it. */
  lemma ArtefactOfPath(kind: string, path: string, name: string, slashes: string)
    requires ' ' !in kind
    requires name != "" && '/' !in name
    requires path == "" || path[|path| - 1] == '/'
    requires forall k :: 0 <= k < |slashes| ==> slashes[k] == '/'
    ensures Artefact(kind + " " + (path + name + slashes)) == name
    ensures Before(kind + " " + (path + name + slashes), ' ') == kind
  {
    SplitAtSpace(kind, path + name + slashes);
    assert (path + name)[|path + name| - 1] == name[|name| - 1];
    TrimSlashesOf(path + name, slashes);
    LastPartOfName(path, name);
  }

  /** A short prefix that ends in a dash, as every sweep prefix does. */
  predicate SweepPrefix(prefix: string) {
    0 < |prefix| <= MAX_LENGTH - HEX_LENGTH && prefix[|prefix| - 1] == '-'
  }

  /** No two sweep prefixes disagree about where the id of a stack name starts:
      an id holds neither a dash nor an underscore.
    */
  lemma SameLength(stem: string, artefact: string, prefix: string)
    requires SweepPrefix(stem) && SweepPrefix(prefix)
    requires Tolerates(stem, artefact) && HexFollows(artefact, |stem|)
    requires Tolerates(prefix, artefact) && HexFollows(artefact, |prefix|)
    ensures |stem| == |prefix|
  {
    IdIsHex(artefact, |stem|);
    IdIsHex(artefact, |prefix|);
  }

  lemma IdIsHex(artefact: string, at: nat)
    requires HexFollows(artefact, at)
    ensures forall k :: at <= k < at + HEX_LENGTH ==> HexChar(artefact[k])
  {
    forall k | at <= k < at + HEX_LENGTH
      ensures HexChar(artefact[k])
    {
      assert artefact[k] == artefact[at..at + HEX_LENGTH][k - at];
    }
  }

  lemma {:induction false} MatchIsStemAndId(prefixes: seq<string>, stem: string, artefact: string)
    requires forall i :: 0 <= i < |prefixes| ==> SweepPrefix(prefixes[i])
    requires stem in prefixes && Tolerates(stem, artefact) && HexFollows(artefact, |stem|)
    ensures MatchStack(prefixes, artefact) == Some(artefact[..|stem| + HEX_LENGTH])
  {
    var first := prefixes[0];
    if Tolerates(first, artefact) && HexFollows(artefact, |first|) {
      SameLength(stem, artefact, first);
    } else {
      assert stem in prefixes[1..];
      MatchIsStemAndId(prefixes[1..], stem, artefact);
    }
  }

  /** A rendered slug, with anything behind it, gives back exactly that slug. */
  lemma RenderedSlugIsRead(prefixes: seq<string>, stem: string, id: string, text: string, tail: string)
    requires forall i :: 0 <= i < |prefixes| ==> SweepPrefix(prefixes[i])
    requires stem in prefixes && MatchesPattern(stem) && IsHex(id)
    requires Renders(stem + id, text)
    ensures MatchStack(prefixes, text + tail) == Some(text)
    ensures Dashes(text) == stem + id
  {
    var slug := stem + id;
    var artefact := text + tail;
    assert forall k :: 0 <= k < |text| ==> artefact[k] == text[k];
    assert forall k :: 0 <= k < |stem| ==> slug[k] == stem[k];
    assert Tolerates(stem, artefact);
    forall k | 0 <= k < HEX_LENGTH
      ensures artefact[|stem|..|stem| + HEX_LENGTH][k] == id[k]
    {
      assert slug[|stem| + k] == id[k] && HexChar(id[k]);
    }
    assert artefact[|stem|..|stem| + HEX_LENGTH] == id;
    MatchIsStemAndId(prefixes, stem, artefact);
    assert artefact[..|stem| + HEX_LENGTH] == text;
    assert forall k :: 0 <= k < |slug| ==> slug[k] != '_' by {
      forall k | 0 <= k < |slug| ensures slug[k] != '_' {
        if k < |stem| {
          assert slug[k] == stem[k];
        } else {
          assert slug[k] == id[k - |stem|] && HexChar(id[k - |stem|]);
        }
      }
    }
    assert Dashes(text) == slug;
  }

  /** Every sweep prefix of the harness, in order. */
  function SweepPrefixes(lower: char -> string, titles: seq<string>): (prefixes: seq<string>)
    ensures |prefixes| == |titles|
    ensures forall i :: 0 <= i < |titles| ==> prefixes[i] == Stem(Slugify(lower, titles[i]))
  {
    seq(|titles|, i requires 0 <= i < |titles| => Stem(Slugify(lower, titles[i])))
  }

  lemma SweepPrefixesAreShort(lower: char -> string, titles: seq<string>)
    ensures forall i :: 0 <= i < |titles| ==>
              && SweepPrefix(SweepPrefixes(lower, titles)[i])
              && MatchesPattern(SweepPrefixes(lower, titles)[i])
              && ProjectSlugPrefix(lower, titles[i]) == Ok(SweepPrefixes(lower, titles)[i])
  {
    forall i | 0 <= i < |titles|
      ensures SweepPrefix(SweepPrefixes(lower, titles)[i])
      ensures MatchesPattern(SweepPrefixes(lower, titles)[i])
      ensures ProjectSlugPrefix(lower, titles[i]) == Ok(SweepPrefixes(lower, titles)[i])
    {
      SlugifyGivesBase(lower, titles[i]);
      StemFacts(Slugify(lower, titles[i]));
      PrefixIsStem(lower, titles[i]);
    }
  }

  /** The slugs of extended titles share the stem of a prefix that fills the room. */
  lemma ExtendedSlug(lower: char -> string, prefix: string, rest: string, id: string)
    requires Proper(lower) && IsHex(id)
    requires Slugify(lower, prefix) != ""
    requires |Slugify(lower, prefix)| + 1 >= MaxBase(Slugify(lower, prefix))
    ensures GenerateProjectSlug(lower, prefix + "-" + rest, id) == Ok(Stem(Slugify(lower, prefix)) + id)
  {
    SlugifyGivesBase(lower, prefix);
    SlugifyGivesBase(lower, rest);
    SlugifyExtends(lower, prefix, rest);
    ExtendedStem(Slugify(lower, prefix), Slugify(lower, rest));
    GenerationNeverFails(lower, prefix + "-" + rest, id);
  }

  lemma ContainerIsRead(prefixes: seq<string>, stem: string, id: string, text: string, service: string)
    requires forall i :: 0 <= i < |prefixes| ==> SweepPrefix(prefixes[i])
    requires stem in prefixes && MatchesPattern(stem) && IsHex(id)
    requires Renders(stem + id, text) && '/' !in service
    ensures StackName(prefixes, "container" + " " + (text + service)) == Some(stem + id)
  {
    RenderedSlugIsRead(prefixes, stem, id, text, service);
    IdIsHex(id, 0);
    assert forall k :: 0 <= k < |text| ==> text[k] != '/' by {
      forall k | 0 <= k < |text| ensures text[k] != '/' {
        assert (stem + id)[k] == if k < |stem| then stem[k] else id[k - |stem|];
      }
    }
    ArtefactOfPath("container", "", text + service, "");
    assert "" + (text + service) + "" == text + service;
  }

  /** The round trip through Docker: the container of a project titled
      `prefix-rest`, however its dashes are rendered and whatever service name
      and number follow, leads back to exactly the project's slug, among any
      list of harness prefixes that holds this one.
    */
  lemma ContainerRoundTrip(lower: char -> string, titles: seq<string>, prefix: string, rest: string,
                           id: string, slug: string, text: string, service: string)
    requires Proper(lower) && IsHex(id) && prefix in titles
    requires Slugify(lower, prefix) != ""
    requires |Slugify(lower, prefix)| + 1 >= MaxBase(Slugify(lower, prefix))
    requires GenerateProjectSlug(lower, prefix + "-" + rest, id) == Ok(slug)
    requires Renders(slug, text) && '/' !in service
    ensures StackName(SweepPrefixes(lower, titles), "container" + " " + (text + service)) == Some(slug)
  {
    var prefixes := SweepPrefixes(lower, titles);
    ExtendedSlug(lower, prefix, rest, id);
    SweepPrefixesAreShort(lower, titles);
    var i :| 0 <= i < |titles| && titles[i] == prefix;
    assert prefixes[i] == Stem(Slugify(lower, prefix));
    ContainerIsRead(prefixes, prefixes[i], id, text, service);
  }

  /** A service directory is its stack name, whatever slashes end the path. */
  lemma DirectoryRoundTrip(prefixes: seq<string>, path: string, slug: string, slashes: string)
    requires MatchesPattern(slug)
    requires path == "" || path[|path| - 1] == '/'
    requires forall k :: 0 <= k < |slashes| ==> slashes[k] == '/'
    ensures StackName(prefixes, "directory" + " " + (path + slug + slashes)) == Some(slug)
  {
    ArtefactOfPath("directory", path, slug, slashes);
  }

  /** A prefix that leaves room for more of the title misses such containers:
      the extra word stands where the id is looked for.
    */
  lemma ShortPrefixMissesContainers(lower: char -> string, prefix: string, id: string)
    requires Proper(lower) && IsHex(id)
    requires Slugify(lower, prefix) != ""
    requires |Slugify(lower, prefix)| + 1 < MaxBase(Slugify(lower, prefix))
    ensures GenerateProjectSlug(lower, prefix + "-x", id).Ok?
    ensures MatchStack([Stem(Slugify(lower, prefix))], GenerateProjectSlug(lower, prefix + "-x", id).value) == None
  {
    var base := Slugify(lower, prefix);
    var stem := Stem(base);
    SlugifyGivesBase(lower, prefix);
    SlugOfLetterX(lower);
    assert prefix + "-" + "x" == prefix + "-x";
    SlugifyExtends(lower, prefix, "x");
    GenerationNeverFails(lower, prefix + "-x", id);
    ShortStemThenX(base);
    var slug := Stem(Extended(base, "x")) + id;
    assert slug[|stem|] == 'x' && !HexChar(slug[|stem|]);
    NoIdThere(slug, |stem|);
  }

  lemma NoIdThere(artefact: string, at: nat)
    requires at < |artefact| && !HexChar(artefact[at])
    ensures !HexFollows(artefact, at)
  {
    if at + HEX_LENGTH <= |artefact| {
      assert artefact[at..at + HEX_LENGTH][0] == artefact[at];
    }
  }

  lemma SlugOfLetterX(lower: char -> string)
    requires Proper(lower)
    ensures Slugify(lower, "x") == "x"
  {
    SlugifyJoinsWords(lower, "x");
    assert lower('x') == "x";
    assert Lowered(lower, "x") == "x";
    WordsOfWord("x");
  }

  lemma ShortStemThenX(base: string)
    requires Base(base) && base != "" && |base| + 1 < MaxBase(base)
    ensures |Stem(base)| < |Stem(Extended(base, "x"))|
    ensures Stem(Extended(base, "x"))[|Stem(base)|] == 'x'
  {
    var all := base + "-" + "x";
    assert Extended(base, "x") == all && Base("x");
    assert all[0] == base[0];
    ExtendedKept(base, "x");
    KeptFacts(all);
    WholeIsKept(base);
    assert Kept(all)[|base| + 1] == all[|base| + 1] == 'x';
  }
}
