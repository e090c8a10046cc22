/** Merging the environment-contract fragments of several owners
    (shared/contracts/env_contract.py). A fragment's entries stand in the order
    of its dictionary; what an entry says is left to the type parameter.
  */
module EnvContract {
  import Multisets

  type Declaration<E> = (string, E)

  datatype Fragment<E> = Fragment(owner: string, entries: seq<Declaration<E>>)

  /** A merged contract, or the key whose declarations conflict. */
  datatype Merge<E> = Merged(entries: map<string, E>) | Incompatible(key: string)

  // ------------------------------------------------------------ sorting by owner

  predicate OwnerLeq(a: string, b: string) {
    || a == ""
    || (b != "" && (a[0] < b[0] || (a[0] == b[0] && OwnerLeq(a[1..], b[1..]))))
  }

  lemma {:induction false} OwnerLeqTotal(a: string, b: string)
    ensures OwnerLeq(a, b) || OwnerLeq(b, a)
    ensures OwnerLeq(a, b) && OwnerLeq(b, a) ==> a == b
  {
    if a != "" && b != "" && a[0] == b[0] {
      OwnerLeqTotal(a[1..], b[1..]);
      assert a == [a[0]] + a[1..] && b == [b[0]] + b[1..];
    }
  }

  lemma {:induction false} OwnerLeqTransitive(a: string, b: string, c: string)
    requires OwnerLeq(a, b) && OwnerLeq(b, c)
    ensures OwnerLeq(a, c)
  {
    if a != "" && b != "" && c != "" && a[0] == b[0] == c[0] {
      OwnerLeqTransitive(a[1..], b[1..], c[1..]);
    }
  }

  function Insert<E>(f: Fragment<E>, sorted: seq<Fragment<E>>): seq<Fragment<E>> {
    if sorted == [] || OwnerLeq(f.owner, sorted[0].owner) then [f] + sorted
    else [sorted[0]] + Insert(f, sorted[1..])
  }

  /** The stable sort by owner. */
  function SortByOwner<E>(fragments: seq<Fragment<E>>): seq<Fragment<E>> {
    if fragments == [] then [] else Insert(fragments[0], SortByOwner(fragments[1..]))
  }

  // --------------------------------------------------------------------- merging

  function Flatten<E>(fragments: seq<Fragment<E>>): seq<Declaration<E>> {
    if fragments == [] then [] else fragments[0].entries + Flatten(fragments[1..])
  }

  /** Declarations taken one after the other into what has been merged so far. */
  function Fold<E(==)>(declarations: seq<Declaration<E>>, merged: map<string, E>): Merge<E>
    decreases |declarations|
  {
    if declarations == [] then Merged(merged)
    else
      var (key, entry) := declarations[0];
      if key in merged && merged[key] != entry then Incompatible(key)
      else Fold(declarations[1..], merged[key := entry])
  }

  function MergeFragments<E(==)>(fragments: seq<Fragment<E>>): Merge<E> {
    Fold(Flatten(SortByOwner(fragments)), map[])
  }

  /** `merge_env_contract_fragments` after its schema validation. */
  method MergeEnvContractFragments<E(==)>(fragments: seq<Fragment<E>>) returns (result: Merge<E>)
    ensures result == MergeFragments(fragments)
  {
    var ordered := SortByOwner(fragments);
    var merged: map<string, E> := map[];
    var i := 0;
    while i < |ordered|
      invariant i <= |ordered|
      invariant MergeFragments(fragments) == Fold(Flatten(ordered[i..]), merged)
    {
      var entries := ordered[i].entries;
      ghost var rest := Flatten(ordered[i + 1..]);
      assert ordered[i..][1..] == ordered[i + 1..];
      var j := 0;
      assert entries[j..] == entries;
      while j < |entries|
        invariant j <= |entries|
        invariant MergeFragments(fragments) == Fold(entries[j..] + rest, merged)
      {
        var (key, entry) := entries[j];
        assert (entries[j..] + rest)[0] == entries[j];
        assert (entries[j..] + rest)[1..] == entries[j + 1..] + rest;
        if key in merged && merged[key] != entry {
          return Incompatible(key);
        }
        merged := merged[key := entry];
        j := j + 1;
      }
      assert entries[j..] + rest == rest;
      i := i + 1;
    }
    assert ordered[i..] == [];
    return Merged(merged);
  }

  // ------------------------------------------------------------ when a merge works

  /** Some fragment declares the key as this entry. */
  ghost predicate Declares<E(!new)>(fragments: seq<Fragment<E>>, key: string, entry: E) {
    exists f :: f in fragments && (key, entry) in f.entries
  }

  ghost predicate Agree<E(!new)>(fragments: seq<Fragment<E>>) {
    forall key, entry, entry' ::
      Declares(fragments, key, entry) && Declares(fragments, key, entry') ==> entry == entry'
  }

  /** A contract holds exactly the declarations, each key once. */
  ghost predicate Holds<E(!new)>(contract: map<string, E>, fragments: seq<Fragment<E>>) {
    forall key, entry :: (key in contract && contract[key] == entry) <==> Declares(fragments, key, entry)
  }

  lemma {:induction false} FlattenMembers<E(!new)>(fragments: seq<Fragment<E>>, d: Declaration<E>)
    ensures d in Flatten(fragments) <==> exists f :: f in fragments && d in f.entries
  {
    if fragments != [] {
      FlattenMembers(fragments[1..], d);
    }
  }

  lemma {:induction false} InsertMembers<E(!new)>(f: Fragment<E>, sorted: seq<Fragment<E>>)
    ensures forall g :: g in Insert(f, sorted) <==> g == f || g in sorted
  {
    if sorted != [] && !OwnerLeq(f.owner, sorted[0].owner) {
      InsertMembers(f, sorted[1..]);
    }
  }

  lemma {:induction false} SortMembers<E(!new)>(fragments: seq<Fragment<E>>)
    ensures forall g :: g in SortByOwner(fragments) <==> g in fragments
  {
    if fragments != [] {
      SortMembers(fragments[1..]);
      InsertMembers(fragments[0], SortByOwner(fragments[1..]));
    }
  }

  /** The declaration is in the list, or was merged before. */
  ghost predicate Known<E(!new)>(declarations: seq<Declaration<E>>, merged: map<string, E>, key: string, entry: E) {
    (key, entry) in declarations || (key in merged && merged[key] == entry)
  }

  lemma {:induction false} FoldExact<E(!new)>(declarations: seq<Declaration<E>>, merged: map<string, E>)
    ensures var result := Fold(declarations, merged);
      && (result.Merged? ==>
            forall key, entry :: (key in result.entries && result.entries[key] == entry)
                                 <==> Known(declarations, merged, key, entry))
      && (result.Incompatible? ==>
            exists entry, entry' :: && Known(declarations, merged, result.key, entry)
                                    && Known(declarations, merged, result.key, entry')
                                    && entry != entry')
    decreases |declarations|
  {
    if declarations != [] {
      var (key, entry) := declarations[0];
      if key in merged && merged[key] != entry {
        assert Known(declarations, merged, key, entry) && Known(declarations, merged, key, merged[key]);
      } else {
        var more := merged[key := entry];
        FoldExact(declarations[1..], more);
        assert forall k, e :: Known(declarations, merged, k, e) <==> Known(declarations[1..], more, k, e);
      }
    }
  }

  /** A merge succeeds exactly when all declarations of each key are equal, and
      then holds those declarations and nothing else; a reported key really has
      two different declarations.
    */
  lemma MergeExact<E(!new)>(fragments: seq<Fragment<E>>)
    ensures MergeFragments(fragments).Merged? <==> Agree(fragments)
    ensures MergeFragments(fragments).Merged? ==> Holds(MergeFragments(fragments).entries, fragments)
    ensures MergeFragments(fragments).Incompatible? ==>
      exists entry, entry' :: && Declares(fragments, MergeFragments(fragments).key, entry)
                              && Declares(fragments, MergeFragments(fragments).key, entry')
                              && entry != entry'
  {
    var declarations := Flatten(SortByOwner(fragments));
    var none: map<string, E> := map[];
    SortMembers(fragments);
    FoldExact(declarations, none);
    forall key, entry
      ensures Known(declarations, none, key, entry) <==> Declares(fragments, key, entry)
    {
      FlattenMembers(SortByOwner(fragments), (key, entry));
    }
  }

  /** The merged keys are the union of the fragments' keys. */
  lemma KeysAreTheUnion<E(!new)>(fragments: seq<Fragment<E>>)
    requires MergeFragments(fragments).Merged?
    ensures forall key :: key in MergeFragments(fragments).entries <==>
                          exists f, d :: f in fragments && d in f.entries && d.0 == key
  {
    MergeExact(fragments);
    var contract := MergeFragments(fragments).entries;
    forall key
      ensures key in contract <==> exists f, d :: f in fragments && d in f.entries && d.0 == key
    {
      if key in contract {
        assert Declares(fragments, key, contract[key]);
        var f :| f in fragments && (key, contract[key]) in f.entries;
        assert (key, contract[key]).0 == key;
      }
      if f, d :| f in fragments && d in f.entries && d.0 == key {
        assert d == (key, d.1);
        assert Declares(fragments, key, d.1);
      }
    }
  }

  // ------------------------------------------------- what a merge does not depend on

  ghost predicate SameDeclarations<E(!new)>(fragments: seq<Fragment<E>>, others: seq<Fragment<E>>) {
    forall key, entry :: Declares(fragments, key, entry) <==> Declares(others, key, entry)
  }

  /** Only the declarations count: not their owners, their order, or how they are
      spread over fragments.
    */
  lemma OnlyDeclarationsCount<E(!new)>(fragments: seq<Fragment<E>>, others: seq<Fragment<E>>)
    requires SameDeclarations(fragments, others)
    ensures MergeFragments(fragments).Merged? == MergeFragments(others).Merged?
    ensures MergeFragments(fragments).Merged? ==> MergeFragments(fragments) == MergeFragments(others)
  {
    MergeExact(fragments);
    MergeExact(others);
    if MergeFragments(fragments).Merged? {
      var a, b := MergeFragments(fragments).entries, MergeFragments(others).entries;
      forall key
        ensures (key in a) == (key in b) && (key in a ==> a[key] == b[key])
      {
        if key in a {
          assert Declares(fragments, key, a[key]);
        }
        if key in b {
          assert Declares(others, key, b[key]);
        }
      }
      assert a == b;
    }
  }

  lemma PermutationKeepsTheContract<E(!new)>(fragments: seq<Fragment<E>>, others: seq<Fragment<E>>)
    requires multiset(fragments) == multiset(others)
    ensures MergeFragments(fragments).Merged? == MergeFragments(others).Merged?
    ensures MergeFragments(fragments).Merged? ==> MergeFragments(fragments) == MergeFragments(others)
  {
    assert forall f :: f in fragments <==> f in multiset(fragments);
    assert forall f :: f in others <==> f in multiset(others);
    OnlyDeclarationsCount(fragments, others);
  }

  /** Moving a declaration from one fragment to another changes nothing. */
  lemma MovingKeepsTheContract<E(!new)>(fragments: seq<Fragment<E>>, i: nat, j: nat, d: Declaration<E>,
                                        kept: seq<Declaration<E>>)
    requires i < |fragments| && j < |fragments| && i != j
    requires d in fragments[i].entries
    requires forall e :: e in fragments[i].entries <==> e == d || e in kept
    ensures var moved := fragments[i := fragments[i].(entries := kept)]
                                  [j := fragments[j].(entries := fragments[j].entries + [d])];
      && MergeFragments(fragments).Merged? == MergeFragments(moved).Merged?
      && (MergeFragments(fragments).Merged? ==> MergeFragments(fragments) == MergeFragments(moved))
  {
    var moved := fragments[i := fragments[i].(entries := kept)]
                          [j := fragments[j].(entries := fragments[j].entries + [d])];
    assert forall k :: 0 <= k < |fragments| && k != i && k != j ==> moved[k] == fragments[k];
    forall key, entry
      ensures Declares(fragments, key, entry) <==> Declares(moved, key, entry)
    {
      MovedDeclares(fragments, moved, i, j, d, key, entry);
    }
    OnlyDeclarationsCount(fragments, moved);
  }

  lemma MovedDeclares<E(!new)>(fragments: seq<Fragment<E>>, moved: seq<Fragment<E>>, i: nat, j: nat,
                               d: Declaration<E>, key: string, entry: E)
    requires i < |fragments| && j < |fragments| && i != j && |moved| == |fragments|
    requires forall k :: 0 <= k < |fragments| && k != i && k != j ==> moved[k] == fragments[k]
    requires forall e :: e in fragments[i].entries <==> e == d || e in moved[i].entries
    requires forall e :: e in moved[j].entries <==> e == d || e in fragments[j].entries
    ensures Declares(fragments, key, entry) <==> Declares(moved, key, entry)
  {
    if f :| f in fragments && (key, entry) in f.entries {
      var k :| 0 <= k < |fragments| && fragments[k] == f;
      var to' := if k == i && (key, entry) == d then j else k;
      assert moved[to'] in moved && (key, entry) in moved[to'].entries;
    }
    if f :| f in moved && (key, entry) in f.entries {
      var k :| 0 <= k < |moved| && moved[k] == f;
      var from := if k == j && (key, entry) == d then i else k;
      assert fragments[from] in fragments && (key, entry) in fragments[from].entries;
    }
  }

  /** The entries of a contract written out as a fragment's dictionary. */
  ghost predicate Lists<E(!new)>(entries: seq<Declaration<E>>, contract: map<string, E>) {
    forall key, entry :: (key, entry) in entries <==> key in contract && contract[key] == entry
  }

  /** Merging in two stages gives what merging at once gives: whether it
      succeeds, and the contract, under any owners of the two halves.
    */
  lemma TwoStages<E(!new)>(left: seq<Fragment<E>>, right: seq<Fragment<E>>, owner: string, owner': string,
                           entries: seq<Declaration<E>>, entries': seq<Declaration<E>>)
    requires MergeFragments(left).Merged? ==> Lists(entries, MergeFragments(left).entries)
    requires MergeFragments(right).Merged? ==> Lists(entries', MergeFragments(right).entries)
    ensures var halves := [Fragment(owner, entries), Fragment(owner', entries')];
      && (MergeFragments(left + right).Merged? <==>
            MergeFragments(left).Merged? && MergeFragments(right).Merged? && MergeFragments(halves).Merged?)
      && (MergeFragments(left + right).Merged? ==> MergeFragments(halves) == MergeFragments(left + right))
  {
    var halves := [Fragment(owner, entries), Fragment(owner', entries')];
    MergeExact(left);
    MergeExact(right);
    MergeExact(left + right);
    forall key, entry
      ensures Declares(left + right, key, entry)
              <==> Declares(left, key, entry) || Declares(right, key, entry)
    {
    }
    if MergeFragments(left).Merged? && MergeFragments(right).Merged? {
      forall key, entry
        ensures Declares(halves, key, entry) <==> Declares(left + right, key, entry)
      {
        assert halves[0] in halves && halves[1] in halves;
        assert Declares(halves, key, entry) <==> (key, entry) in entries || (key, entry) in entries';
      }
      OnlyDeclarationsCount(halves, left + right);
    }
  }

  // ------------------------------------------------------------- the reported key

  function OwnedBy<E>(fragments: seq<Fragment<E>>, owner: string): seq<Fragment<E>> {
    if fragments == [] then []
    else (if fragments[0].owner == owner then [fragments[0]] else []) + OwnedBy(fragments[1..], owner)
  }

  predicate Sorted<E>(fragments: seq<Fragment<E>>) {
    fragments == [] ||
    (&& (forall k :: 0 <= k < |fragments| ==> OwnerLeq(fragments[0].owner, fragments[k].owner))
     && Sorted(fragments[1..]))
  }

  lemma {:induction false} InsertKeepsOwned<E(!new)>(f: Fragment<E>, sorted: seq<Fragment<E>>, owner: string)
    ensures OwnedBy(Insert(f, sorted), owner)
            == (if f.owner == owner then [f] else []) + OwnedBy(sorted, owner)
  {
    if sorted == [] || OwnerLeq(f.owner, sorted[0].owner) {
      assert ([f] + sorted)[1..] == sorted;
    } else {
      InsertKeepsOwned(f, sorted[1..], owner);
      OwnerLeqTotal(f.owner, f.owner);
      assert Insert(f, sorted)[1..] == Insert(f, sorted[1..]);
    }
  }

  lemma {:induction false} InsertSorts<E(!new)>(f: Fragment<E>, sorted: seq<Fragment<E>>)
    requires Sorted(sorted)
    ensures Sorted(Insert(f, sorted))
  {
    OwnerLeqTotal(f.owner, f.owner);
    if sorted == [] || OwnerLeq(f.owner, sorted[0].owner) {
      var all := [f] + sorted;
      assert all[1..] == sorted;
      forall k | 0 <= k < |all|
        ensures OwnerLeq(f.owner, all[k].owner)
      {
        if k > 0 {
          OwnerLeqTransitive(f.owner, sorted[0].owner, sorted[k - 1].owner);
        }
      }
    } else {
      var rest := Insert(f, sorted[1..]);
      InsertSorts(f, sorted[1..]);
      InsertMembers(f, sorted[1..]);
      OwnerLeqTotal(f.owner, sorted[0].owner);
      forall g | g in rest
        ensures OwnerLeq(sorted[0].owner, g.owner)
      {
        if g != f {
          var k :| 0 <= k < |sorted[1..]| && sorted[1..][k] == g;
          assert sorted[k + 1] == g;
        }
      }
      HeadIsLeast(sorted[0], rest);
    }
  }

  lemma HeadIsLeast<E(!new)>(head: Fragment<E>, rest: seq<Fragment<E>>)
    requires Sorted(rest)
    requires forall g :: g in rest ==> OwnerLeq(head.owner, g.owner)
    ensures Sorted([head] + rest)
  {
    OwnerLeqTotal(head.owner, head.owner);
    assert ([head] + rest)[1..] == rest;
  }

  /** The sort orders the owners and keeps each owner's fragments in their order. */
  lemma {:induction false} SortIsStable<E(!new)>(fragments: seq<Fragment<E>>, owner: string)
    ensures Sorted(SortByOwner(fragments))
    ensures OwnedBy(SortByOwner(fragments), owner) == OwnedBy(fragments, owner)
  {
    if fragments != [] {
      SortIsStable(fragments[1..], owner);
      var rest := SortByOwner(fragments[1..]);
      InsertKeepsOwned(fragments[0], rest, owner);
      InsertSorts(fragments[0], rest);
    }
  }

  lemma {:induction false} OwnedByFinds<E(!new)>(fragments: seq<Fragment<E>>, owner: string)
    ensures OwnedBy(fragments, owner) != [] ==> exists k :: 0 <= k < |fragments| && fragments[k].owner == owner
  {
    if fragments != [] && fragments[0].owner != owner {
      OwnedByFinds(fragments[1..], owner);
      if OwnedBy(fragments, owner) != [] {
        var k :| 0 <= k < |fragments[1..]| && fragments[1..][k].owner == owner;
        assert fragments[k + 1].owner == owner;
      }
    }
  }

  /** A sorted list is determined by what each owner has in it. */
  lemma {:induction false} SortedIsUnique<E(!new)>(a: seq<Fragment<E>>, b: seq<Fragment<E>>)
    requires Sorted(a) && Sorted(b)
    requires forall owner :: OwnedBy(a, owner) == OwnedBy(b, owner)
    ensures a == b
  {
    assert b != [] ==> OwnedBy(b, b[0].owner) != [];
    if a != [] {
      var owner := a[0].owner;
      assert OwnedBy(a, owner) == OwnedBy(b, owner) != [];
      OwnedByFinds(b, owner);
      var first := b[0].owner;
      assert OwnedBy(b, first) == OwnedBy(a, first) != [];
      OwnedByFinds(a, first);
      OwnerLeqTotal(owner, first);
      assert OwnedBy(a, owner)[0] == a[0] && OwnedBy(b, owner)[0] == b[0];
      forall o
        ensures OwnedBy(a[1..], o) == OwnedBy(b[1..], o)
      {
        assert OwnedBy(a, o) == OwnedBy(b, o);
        assert OwnedBy(a, o) == (if owner == o then [a[0]] else []) + OwnedBy(a[1..], o);
        assert OwnedBy(b, o) == (if owner == o then [b[0]] else []) + OwnedBy(b[1..], o);
        if owner != o {
          assert OwnedBy(a, o) == OwnedBy(a[1..], o) && OwnedBy(b, o) == OwnedBy(b[1..], o);
        } else {
          assert OwnedBy(a, o)[1..] == OwnedBy(a[1..], o) && OwnedBy(b, o)[1..] == OwnedBy(b[1..], o);
        }
      }
      SortedIsUnique(a[1..], b[1..]);
      assert a == [a[0]] + a[1..] && b == [b[0]] + b[1..];
    }
  }

  /** The whole outcome, the reported key included, depends only on the order
      of each owner's own fragments. With one fragment per owner it is therefore
      the same for every order of the list.
    */
  lemma ReportDependsOnOwnersOnly<E(!new)>(fragments: seq<Fragment<E>>, others: seq<Fragment<E>>)
    requires forall owner :: OwnedBy(fragments, owner) == OwnedBy(others, owner)
    ensures MergeFragments(fragments) == MergeFragments(others)
  {
    SortIsStable(fragments, "");
    SortIsStable(others, "");
    forall owner
      ensures OwnedBy(SortByOwner(fragments), owner) == OwnedBy(SortByOwner(others), owner)
    {
      SortIsStable(fragments, owner);
      SortIsStable(others, owner);
    }
    SortedIsUnique(SortByOwner(fragments), SortByOwner(others));
  }

  predicate OneFragmentPerOwner<E>(fragments: seq<Fragment<E>>) {
    forall i, j :: 0 <= i < j < |fragments| ==> fragments[i].owner != fragments[j].owner
  }

  lemma {:induction false} OwnedByOne<E(!new)>(fragments: seq<Fragment<E>>, owner: string)
    requires OneFragmentPerOwner(fragments)
    ensures |OwnedBy(fragments, owner)| <= 1
    ensures forall f :: f in OwnedBy(fragments, owner) <==> f in fragments && f.owner == owner
  {
    if fragments != [] {
      OwnedByOne(fragments[1..], owner);
      if fragments[0].owner == owner && OwnedBy(fragments[1..], owner) != [] {
        OwnedByFinds(fragments[1..], owner);
        assert false;
      }
    }
  }

  /** With one fragment per owner, every order of the list reports the same key. */
  lemma ReportIsDeterministic<E(!new)>(fragments: seq<Fragment<E>>, others: seq<Fragment<E>>)
    requires OneFragmentPerOwner(fragments) && OneFragmentPerOwner(others)
    requires forall f :: f in fragments <==> f in others
    ensures MergeFragments(fragments) == MergeFragments(others)
  {
    forall owner
      ensures OwnedBy(fragments, owner) == OwnedBy(others, owner)
    {
      OwnedByOne(fragments, owner);
      OwnedByOne(others, owner);
      var a, b := OwnedBy(fragments, owner), OwnedBy(others, owner);
      if a != [] {
        var f := a[0];
        assert f in OwnedBy(fragments, owner);
        assert f in fragments && f in others && f.owner == owner;
        assert f in OwnedBy(others, owner);
      }
      if b != [] {
        var f := b[0];
        assert f in OwnedBy(others, owner);
        assert f in others && f in fragments && f.owner == owner;
        assert f in OwnedBy(fragments, owner);
      }
    }
    ReportDependsOnOwnersOnly(fragments, others);
  }

  // -------------------------------------------- which owners leave the report open

  lemma FlattenCons<E(!new)>(f: Fragment<E>, rest: seq<Fragment<E>>)
    ensures Flatten([f] + rest) == f.entries + Flatten(rest)
  {
    assert ([f] + rest)[1..] == rest;
  }

  lemma {:induction false} FlattenOwned<E(!new)>(fragments: seq<Fragment<E>>, owner: string)
    requires forall k :: 0 <= k < |fragments| && fragments[k].owner != owner ==> fragments[k].entries == []
    ensures Flatten(fragments) == Flatten(OwnedBy(fragments, owner))
  {
    if fragments != [] {
      var f, rest := fragments[0], fragments[1..];
      FlattenOwned(rest, owner);
      FlattenCons(f, OwnedBy(rest, owner));
      if f.owner != owner {
        assert f.entries == [] && OwnedBy(fragments, owner) == OwnedBy(rest, owner);
      } else {
        assert OwnedBy(fragments, owner) == [f] + OwnedBy(rest, owner);
      }
    }
  }

  /** If only one owner declares anything, the sort does not matter. */
  lemma OneSpeakerIsUnsorted<E(!new)>(fragments: seq<Fragment<E>>, owner: string)
    requires forall f :: f in fragments && f.owner != owner ==> f.entries == []
    ensures Flatten(SortByOwner(fragments)) == Flatten(fragments)
  {
    SortMembers(fragments);
    FlattenOwned(SortByOwner(fragments), owner);
    FlattenOwned(fragments, owner);
    SortIsStable(fragments, owner);
  }

  lemma {:induction false} FlattenNone<E(!new)>(fragments: seq<Fragment<E>>)
    requires forall k :: 0 <= k < |fragments| ==> fragments[k].entries == []
    ensures Flatten(fragments) == []
  {
    if fragments != [] {
      FlattenNone(fragments[1..]);
    }
  }

  lemma {:induction false} FlattenOne<E(!new)>(fragments: seq<Fragment<E>>, i: nat)
    requires i < |fragments|
    requires forall k :: 0 <= k < |fragments| && k != i ==> fragments[k].entries == []
    ensures Flatten(fragments) == fragments[i].entries
  {
    if i == 0 {
      FlattenNone(fragments[1..]);
    } else {
      FlattenOne(fragments[1..], i - 1);
    }
  }

  lemma {:induction false} FlattenTwo<E(!new)>(fragments: seq<Fragment<E>>, i: nat, j: nat)
    requires i < j < |fragments|
    requires forall k :: 0 <= k < |fragments| && k != i && k != j ==> fragments[k].entries == []
    ensures Flatten(fragments) == fragments[i].entries + fragments[j].entries
  {
    if i == 0 {
      FlattenOne(fragments[1..], j - 1);
    } else {
      FlattenTwo(fragments[1..], i - 1, j - 1);
    }
  }

  function OwnersOf<E>(fragments: seq<Fragment<E>>): seq<string> {
    seq(|fragments|, k requires 0 <= k < |fragments| => fragments[k].owner)
  }

  /** Everybody is silent but the owner at i and j, who declares two keys twice
      and differently. */
  function Planted<E>(owners: seq<string>, i: nat, j: nat, one: E, two: E): (fragments: seq<Fragment<E>>)
    requires i < j < |owners|
    ensures OwnersOf(fragments) == owners
  {
    seq(|owners|, k requires 0 <= k < |owners| =>
      Fragment(owners[k], if k == i then [("X", one), ("Y", one)] else if k == j then [("Y", two), ("X", two)] else []))
  }

  lemma ThirdConflicts<E(!new)>(key: string, other: string, one: E, two: E, declarations: seq<Declaration<E>>)
    requires one != two && key != other && |declarations| == 4
    requires (key, one) in declarations[..2] && declarations[0].0 != declarations[1].0
    requires declarations[2] == (key, two)
    requires forall k :: 0 <= k < 2 ==> declarations[k].1 == one
    ensures Fold(declarations, map[]) == Incompatible(key)
  {
    var none: map<string, E> := map[];
    var m1 := none[declarations[0].0 := declarations[0].1];
    var m2 := m1[declarations[1].0 := declarations[1].1];
    assert Fold(declarations, none) == Fold(declarations[1..], m1);
    assert Fold(declarations[1..], m1) == Fold(declarations[1..][1..], m2);
    assert declarations[1..][1..][0] == declarations[2];
  }

  lemma PlantedReport<E(!new)>(fragments: seq<Fragment<E>>, i: nat, j: nat, key: string, other: string, one: E, two: E)
    requires one != two && key != other
    requires i < j < |fragments| && fragments[i].owner == fragments[j].owner
    requires forall k :: 0 <= k < |fragments| && k != i && k != j ==> fragments[k].entries == []
    requires fragments[i].entries == [(other, one), (key, one)]
    requires fragments[j].entries == [(key, two), (other, two)]
    ensures MergeFragments(fragments) == Incompatible(key)
  {
    OneSpeakerIsUnsorted(fragments, fragments[i].owner);
    FlattenTwo(fragments, i, j);
    ThirdConflicts(key, other, one, two, fragments[i].entries + fragments[j].entries);
  }

  lemma SwapIsPermutation<E(!new)>(fragments: seq<Fragment<E>>, i: nat, j: nat)
    requires i < j < |fragments|
    ensures multiset(fragments[i := fragments[j]][j := fragments[i]]) == multiset(fragments)
  {
  }

  /** Any owner who occurs twice can make the order of the list choose the
      report: the same fragments, with that owner's two exchanged. */
  lemma RepeatedOwnerChangesTheReport<E(!new)>(owners: seq<string>, i: nat, j: nat, one: E, two: E)
    requires one != two && i < j < |owners| && owners[i] == owners[j]
    ensures
      var listed := Planted(owners, i, j, one, two);
      var swapped := listed[i := listed[j]][j := listed[i]];
      && multiset(swapped) == multiset(listed) && OwnersOf(swapped) == OwnersOf(listed) == owners
      && MergeFragments(listed) == Incompatible("Y")
      && MergeFragments(swapped) == Incompatible("X")
  {
    var listed := Planted(owners, i, j, one, two);
    var swapped := listed[i := listed[j]][j := listed[i]];
    SwapIsPermutation(listed, i, j);
    assert listed[i].owner == owners[i] && listed[j].owner == owners[j];
    PlantedReport(listed, i, j, "Y", "X", one, two);
    PlantedReport(swapped, i, j, "X", "Y", two, one);
  }

  /** Lists with these owners are reported alike in every order. */
  ghost predicate OrderFree<E(!new)>(owners: seq<string>) {
    forall fragments: seq<Fragment<E>>, others: seq<Fragment<E>> ::
      OwnersOf(fragments) == owners && multiset(fragments) == multiset(others) ==>
        MergeFragments(fragments) == MergeFragments(others)
  }

  predicate Distinct(owners: seq<string>) {
    forall i, j :: 0 <= i < j < |owners| ==> owners[i] != owners[j]
  }

  lemma {:induction false} CountedOnce<E(!new)>(fragments: seq<Fragment<E>>, f: Fragment<E>)
    requires OneFragmentPerOwner(fragments)
    ensures multiset(fragments)[f] <= 1
  {
    if fragments != [] {
      CountedOnce(fragments[1..], f);
      assert fragments == [fragments[0]] + fragments[1..];
    }
  }

  lemma PermutationKeepsOwnersApart<E(!new)>(fragments: seq<Fragment<E>>, others: seq<Fragment<E>>)
    requires OneFragmentPerOwner(fragments) && multiset(fragments) == multiset(others)
    ensures OneFragmentPerOwner(others)
  {
    forall a, b | 0 <= a < b < |others|
      ensures others[a].owner != others[b].owner
    {
      assert others[a] in multiset(others) && others[b] in multiset(others);
      assert others[a] in fragments && others[b] in fragments;
      if others[a] == others[b] {
        Multisets.CountedTwice(others, a, b);
        CountedOnce(fragments, others[a]);
      }
    }
  }

  /** Exactly the lists without a repeated owner are reported alike in every
      order, for every type of entries with two different values. */
  lemma OrderFreeExactly<E(!new)>(owners: seq<string>, one: E, two: E)
    requires one != two
    ensures OrderFree<E>(owners) <==> Distinct(owners)
  {
    if Distinct(owners) {
      forall fragments: seq<Fragment<E>>, others: seq<Fragment<E>>
        | OwnersOf(fragments) == owners && multiset(fragments) == multiset(others)
        ensures MergeFragments(fragments) == MergeFragments(others)
      {
        assert forall k :: 0 <= k < |fragments| ==> owners[k] == fragments[k].owner;
        PermutationKeepsOwnersApart(fragments, others);
        assert forall f :: f in fragments <==> f in multiset(fragments);
        assert forall f :: f in others <==> f in multiset(others);
        ReportIsDeterministic(fragments, others);
      }
    } else {
      var i, j :| 0 <= i < j < |owners| && owners[i] == owners[j];
      RepeatedOwnerChangesTheReport(owners, i, j, one, two);
    }
  }
}
