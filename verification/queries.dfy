/** Read-only queries on a monomer group: filtered iteration over (residue name,
    fragment) pairs, grouping by residue, counting, and the linearity test. */
module Queries {
  import opened Errors
  import opened OrderedMaps
  import opened Monomers

  /** The `term_only` filter: None keeps every fragment, Some(true) only terminal ones,
      Some(false) only the non-terminal ones (0 ports and more than 2 ports included). */
  predicate Keep(termOnly: Option<bool>, s: Smarts) {
    termOnly.None? || IsTerminal(s) == termOnly.value
  }

  /** The fragments of one list the filter keeps, in list order. */
  function Sel(xs: seq<Smarts>, termOnly: Option<bool>): (r: seq<Smarts>)
    ensures |r| <= |xs|
    ensures forall x :: x in r <==> x in xs && Keep(termOnly, x)
  {
    if xs == [] then []
    else (if Keep(termOnly, xs[0]) then [xs[0]] else []) + Sel(xs[1..], termOnly)
  }

  /** The pairs the filter keeps, in order. */
  function FilterPairs(ps: seq<(string, Smarts)>, termOnly: Option<bool>): (r: seq<(string, Smarts)>)
    ensures |r| <= |ps|
    ensures forall p :: p in r <==> p in ps && Keep(termOnly, p.1)
  {
    if ps == [] then []
    else (if Keep(termOnly, ps[0].1) then [ps[0]] else []) + FilterPairs(ps[1..], termOnly)
  }

  /** Every fragment of a list paired with the residue name. */
  function Tag(resname: string, xs: seq<Smarts>): (r: seq<(string, Smarts)>)
    ensures |r| == |xs| && forall i :: 0 <= i < |xs| ==> r[i] == (resname, xs[i])
  {
    seq(|xs|, i requires 0 <= i < |xs| => (resname, xs[i]))
  }

  /** The inner loop of `iter_rdmols`: one residue's fragments, filtered. */
  function IterResidue(resname: string, xs: seq<Smarts>, termOnly: Option<bool>): seq<(string, Smarts)>
  {
    if xs == [] then []
    else (if Keep(termOnly, xs[0]) then [(resname, xs[0])] else []) + IterResidue(resname, xs[1..], termOnly)
  }

  /** The outer loop of `iter_rdmols`: residues in insertion order. */
  function IterEntries(m: OMap<string, seq<Smarts>>, termOnly: Option<bool>): seq<(string, Smarts)>
  {
    if m == [] then []
    else IterResidue(m[0].0, m[0].1, termOnly) + IterEntries(m[1..], termOnly)
  }

  /** The (residue name, fragment) pairs of a group, residues in insertion order and each
      residue's fragments in list order, restricted by the filter. */
  function IterRdmols(g: MonomerGroup, termOnly: Option<bool>): seq<(string, Smarts)>
  {
    IterEntries(g.monomers, termOnly)
  }

  lemma {:induction false} IterResidueIsTagged(resname: string, xs: seq<Smarts>, termOnly: Option<bool>)
    ensures IterResidue(resname, xs, termOnly) == Tag(resname, Sel(xs, termOnly))
  {
    if xs != [] {
      IterResidueIsTagged(resname, xs[1..], termOnly);
    }
  }

  lemma {:induction false} FilterPairsAppend(a: seq<(string, Smarts)>, b: seq<(string, Smarts)>, termOnly: Option<bool>)
    ensures FilterPairs(a + b, termOnly) == FilterPairs(a, termOnly) + FilterPairs(b, termOnly)
  {
    if a == [] {
      assert a + b == b;
    } else {
      assert (a + b)[0] == a[0] && (a + b)[1..] == a[1..] + b;
      FilterPairsAppend(a[1..], b, termOnly);
      assert FilterPairs(a + b, termOnly)
          == (if Keep(termOnly, a[0].1) then [a[0]] else []) + FilterPairs(a[1..] + b, termOnly);
    }
  }

  lemma {:induction false} IterResidueFilters(resname: string, xs: seq<Smarts>, termOnly: Option<bool>)
    ensures IterResidue(resname, xs, termOnly) == FilterPairs(IterResidue(resname, xs, None), termOnly)
  {
    if xs != [] {
      IterResidueFilters(resname, xs[1..], termOnly);
      FilterPairsAppend([(resname, xs[0])], IterResidue(resname, xs[1..], None), termOnly);
    }
  }

  /** Filtering inside the nested loops yields exactly the full iteration, filtered. */
  lemma {:induction false} IterEntriesFilters(m: OMap<string, seq<Smarts>>, termOnly: Option<bool>)
    ensures IterEntries(m, termOnly) == FilterPairs(IterEntries(m, None), termOnly)
  {
    if m != [] {
      IterResidueFilters(m[0].0, m[0].1, termOnly);
      IterEntriesFilters(m[1..], termOnly);
      FilterPairsAppend(IterResidue(m[0].0, m[0].1, None), IterEntries(m[1..], None), termOnly);
    }
  }

  /** `a` is obtained from `b` by deleting elements. */
  ghost predicate IsSubseq<T>(a: seq<T>, b: seq<T>)
    decreases |b|
  {
    if a == [] then true
    else if b == [] then false
    else (a[0] == b[0] && IsSubseq(a[1..], b[1..])) || IsSubseq(a, b[1..])
  }

  lemma {:induction false} FilterIsSubseq(ps: seq<(string, Smarts)>, termOnly: Option<bool>)
    ensures IsSubseq(FilterPairs(ps, termOnly), ps)
  {
    if ps != [] {
      FilterIsSubseq(ps[1..], termOnly);
      var r := FilterPairs(ps, termOnly);
      if Keep(termOnly, ps[0].1) {
        assert r == [ps[0]] + FilterPairs(ps[1..], termOnly);
        assert r[0] == ps[0] && r[1..] == FilterPairs(ps[1..], termOnly);
      } else {
        assert r == FilterPairs(ps[1..], termOnly);
      }
    }
  }

  /** The filtered list of one residue keeps list order and every occurrence of a kept
      fragment: it is the subsequence of exactly the kept fragments. */
  lemma {:induction false} SelOrder(xs: seq<Smarts>, termOnly: Option<bool>)
    ensures IsSubseq(Sel(xs, termOnly), xs)
    ensures forall x :: multiset(Sel(xs, termOnly))[x] == if Keep(termOnly, x) then multiset(xs)[x] else 0
  {
    SelSubseq(xs, termOnly);
    SelCount(xs, termOnly);
  }

  lemma {:induction false} SelSubseq(xs: seq<Smarts>, termOnly: Option<bool>)
    ensures IsSubseq(Sel(xs, termOnly), xs)
  {
    if xs != [] {
      SelSubseq(xs[1..], termOnly);
      var r := Sel(xs, termOnly);
      if Keep(termOnly, xs[0]) {
        assert r == [xs[0]] + Sel(xs[1..], termOnly);
        assert r[0] == xs[0] && r[1..] == Sel(xs[1..], termOnly);
      } else {
        assert r == Sel(xs[1..], termOnly);
      }
    }
  }

  lemma {:induction false} SelCount(xs: seq<Smarts>, termOnly: Option<bool>)
    ensures forall x :: multiset(Sel(xs, termOnly))[x] == if Keep(termOnly, x) then multiset(xs)[x] else 0
  {
    if xs != [] {
      SelCount(xs[1..], termOnly);
      var head := if Keep(termOnly, xs[0]) then [xs[0]] else [];
      assert multiset(xs) == multiset([xs[0]]) + multiset(xs[1..]) by {
        assert xs == [xs[0]] + xs[1..];
      }
      assert multiset(Sel(xs, termOnly)) == multiset(head) + multiset(Sel(xs[1..], termOnly));
    }
  }

  /** Filtered iteration: the full iteration with exactly the pairs whose fragment passes
      the filter, in the same relative order. */
  lemma {:induction false} IterRdmolsFiltered(g: MonomerGroup, termOnly: Option<bool>)
    ensures IterRdmols(g, termOnly) == FilterPairs(IterRdmols(g, None), termOnly)
    ensures IsSubseq(IterRdmols(g, termOnly), IterRdmols(g, None))
    ensures forall p :: p in IterRdmols(g, termOnly) <==> p in IterRdmols(g, None) && Keep(termOnly, p.1)
  {
    IterEntriesFilters(g.monomers, termOnly);
    FilterIsSubseq(IterRdmols(g, None), termOnly);
  }

  /** The full iteration lists the first residue's fragments, tagged, before the rest. */
  lemma {:induction false} IterEntriesHead(m: OMap<string, seq<Smarts>>)
    requires m != []
    ensures IterEntries(m, None) == Tag(m[0].0, m[0].1) + IterEntries(m[1..], None)
  {
    IterResidueIsTagged(m[0].0, m[0].1, None);
    SelNone(m[0].1);
  }

  /** The full iteration yields exactly the pairs of a residue name with a fragment of that
      residue's list. */
  lemma {:induction false} IterEntriesAll(m: OMap<string, seq<Smarts>>)
    ensures m != [] ==> IterEntries(m, None) == Tag(m[0].0, m[0].1) + IterEntries(m[1..], None)
    ensures forall rn, x :: (rn, x) in IterEntries(m, None) <==>
      exists i :: 0 <= i < |m| && m[i].0 == rn && x in m[i].1
  {
    if m != [] {
      IterEntriesHead(m);
      IterEntriesAll(m[1..]);
      IterEntriesAllStep(m);
    }
  }

  lemma {:induction false} IterEntriesAllStep(m: OMap<string, seq<Smarts>>)
    requires m != []
    requires IterEntries(m, None) == Tag(m[0].0, m[0].1) + IterEntries(m[1..], None)
    requires forall rn, x :: (rn, x) in IterEntries(m[1..], None) <==>
      exists i :: 0 <= i < |m[1..]| && m[1..][i].0 == rn && x in m[1..][i].1
    ensures forall rn, x :: (rn, x) in IterEntries(m, None) <==>
      exists i :: 0 <= i < |m| && m[i].0 == rn && x in m[i].1
  {
    var head := Tag(m[0].0, m[0].1);
    var rest := IterEntries(m[1..], None);
    forall rn, x | (rn, x) in IterEntries(m, None)
      ensures exists i :: 0 <= i < |m| && m[i].0 == rn && x in m[i].1
    {
      if (rn, x) in head {
        var j :| 0 <= j < |head| && head[j] == (rn, x);
        assert m[0].0 == rn && x in m[0].1;
      } else {
        assert (rn, x) in rest;
        var i :| 0 <= i < |m[1..]| && m[1..][i].0 == rn && x in m[1..][i].1;
        assert m[i + 1] == m[1..][i];
      }
    }
    forall rn, x | (exists i :: 0 <= i < |m| && m[i].0 == rn && x in m[i].1)
      ensures (rn, x) in IterEntries(m, None)
    {
      var i :| 0 <= i < |m| && m[i].0 == rn && x in m[i].1;
      if i > 0 {
        assert m[1..][i - 1] == m[i];
        assert (rn, x) in rest;
      } else {
        var j :| 0 <= j < |m[0].1| && m[0].1[j] == x;
        assert head[j] == (rn, x);
      }
    }
  }

  /** Residues are visited one after another in insertion order: a pair of a residue
      never comes after a pair of a residue inserted later. */
  lemma {:induction false} IterEntriesOrder(m: OMap<string, seq<Smarts>>, termOnly: Option<bool>, a: nat, b: nat, j: nat, k: nat)
    requires DistinctKeys(m)
    requires a < |m| && b < |m|
    ensures var ps := IterEntries(m, termOnly);
      j < k < |ps| && ps[j].0 == m[a].0 && ps[k].0 == m[b].0 ==> a <= b
  {
    var ps := IterEntries(m, termOnly);
    if j < k < |ps| && ps[j].0 == m[a].0 && ps[k].0 == m[b].0 && a > 0 {
      var head := IterResidue(m[0].0, m[0].1, termOnly);
      var rest := IterEntries(m[1..], termOnly);
      assert ps == head + rest;
      IterResidueNames(m[0].0, m[0].1, termOnly);
      assert j >= |head|;
      assert ps[k] == rest[k - |head|];
      assert b > 0 by {
        IterEntriesNames(m[1..], termOnly);
        assert rest[k - |head|] in rest;
        var i :| 0 <= i < |m[1..]| && Keys(m[1..])[i] == m[b].0;
        assert m[i + 1].0 == m[b].0;
      }
      assert ps[j] == rest[j - |head|];
      assert m[1..][a - 1] == m[a] && m[1..][b - 1] == m[b];
      IterEntriesOrder(m[1..], termOnly, a - 1, b - 1, j - |head|, k - |head|);
    }
  }

  lemma {:induction false} IterResidueNames(resname: string, xs: seq<Smarts>, termOnly: Option<bool>)
    ensures forall j :: 0 <= j < |IterResidue(resname, xs, termOnly)| ==>
      IterResidue(resname, xs, termOnly)[j].0 == resname
  {
    if xs != [] {
      IterResidueNames(resname, xs[1..], termOnly);
    }
  }

  lemma {:induction false} IterEntriesNames(m: OMap<string, seq<Smarts>>, termOnly: Option<bool>)
    ensures forall p :: p in IterEntries(m, termOnly) ==> p.0 in Keys(m)
  {
    if m != [] {
      var head := IterResidue(m[0].0, m[0].1, termOnly);
      var rest := IterEntries(m[1..], termOnly);
      IterResidueNames(m[0].0, m[0].1, termOnly);
      IterEntriesNames(m[1..], termOnly);
      assert IterEntries(m, termOnly) == head + rest;
      assert Keys(m) == [m[0].0] + Keys(m[1..]);
    }
  }

  /** A run of pairs tagged with one residue name counts only for that name. */
  lemma {:induction false} CountTag(resname: string, xs: seq<Smarts>, k: string)
    ensures CountKey(Tag(resname, xs), k) == if k == resname then |xs| else 0
  {
    if xs != [] {
      CountTag(resname, xs[1..], k);
      assert Tag(resname, xs)[1..] == Tag(resname, xs[1..]);
    }
  }

  /** The `j`-th pair of the filtered iteration holds the `c`-th kept fragment of its
      residue, where `c` counts the earlier pairs with the same residue name. */
  lemma {:induction false} IterNth(m: OMap<string, seq<Smarts>>, termOnly: Option<bool>, j: nat)
    requires DistinctKeys(m) && j < |IterEntries(m, termOnly)|
    ensures NthHolds(m, termOnly, j)
    decreases |m|
  {
    assert m != [];
    var s := Sel(m[0].1, termOnly);
    IterResidueIsTagged(m[0].0, m[0].1, termOnly);
    if j < |s| {
      IterNthFirst(m, termOnly, j);
    } else {
      IterNth(m[1..], termOnly, j - |s|);
      IterNthLater(m, termOnly, j);
    }
  }

  /** The claim of `IterNth` for one position. */
  predicate NthHolds(m: OMap<string, seq<Smarts>>, termOnly: Option<bool>, j: nat)
    requires j < |IterEntries(m, termOnly)|
  {
    var ps := IterEntries(m, termOnly);
    var rn := ps[j].0;
    && Lookup(m, rn).Some?
    && CountKey(ps[..j], rn) < |Sel(Lookup(m, rn).value, termOnly)|
    && Sel(Lookup(m, rn).value, termOnly)[CountKey(ps[..j], rn)] == ps[j].1
  }

  lemma {:induction false} IterNthFirst(m: OMap<string, seq<Smarts>>, termOnly: Option<bool>, j: nat)
    requires DistinctKeys(m) && m != []
    requires IterResidue(m[0].0, m[0].1, termOnly) == Tag(m[0].0, Sel(m[0].1, termOnly))
    requires j < |Sel(m[0].1, termOnly)|
    ensures j < |IterEntries(m, termOnly)| && NthHolds(m, termOnly, j)
  {
    var ps := IterEntries(m, termOnly);
    var s := Sel(m[0].1, termOnly);
    assert ps == Tag(m[0].0, s) + IterEntries(m[1..], termOnly);
    assert ps[j] == (m[0].0, s[j]);
    assert ps[..j] == Tag(m[0].0, s[..j]);
    CountTag(m[0].0, s[..j], m[0].0);
    LookupAt(m, 0);
  }

  lemma {:induction false} IterNthLater(m: OMap<string, seq<Smarts>>, termOnly: Option<bool>, j: nat)
    requires DistinctKeys(m) && m != []
    requires IterResidue(m[0].0, m[0].1, termOnly) == Tag(m[0].0, Sel(m[0].1, termOnly))
    requires |Sel(m[0].1, termOnly)| <= j < |IterEntries(m, termOnly)|
    requires NthHolds(m[1..], termOnly, j - |Sel(m[0].1, termOnly)|)
    ensures NthHolds(m, termOnly, j)
  {
    var ps := IterEntries(m, termOnly);
    var s := Sel(m[0].1, termOnly);
    var rest := IterEntries(m[1..], termOnly);
    var j' := j - |s|;
    assert ps == Tag(m[0].0, s) + rest;
    assert ps[j] == rest[j'];
    var rn := rest[j'].0;
    assert rn != m[0].0 by {
      LookupFound(m[1..], rn);
      var i :| 0 <= i < |m[1..]| && Keys(m[1..])[i] == rn;
      assert m[i + 1].0 == rn;
    }
    assert ps[..j] == Tag(m[0].0, s) + rest[..j'];
    CountKeyAppend(Tag(m[0].0, s), rest[..j'], rn);
    CountTag(m[0].0, s, rn);
  }

  lemma {:induction false} SelNone(xs: seq<Smarts>)
    ensures Sel(xs, None) == xs
  {
    if xs != [] {
      SelNone(xs[1..]);
    }
  }

  /** Every fragment is terminal or not: the two filtered iterations together have as
      many pairs as the full one. */
  lemma {:induction false} IterEntriesPartition(m: OMap<string, seq<Smarts>>)
    ensures |IterEntries(m, Some(true))| + |IterEntries(m, Some(false))| == |IterEntries(m, None)|
  {
    IterEntriesFilters(m, Some(true));
    IterEntriesFilters(m, Some(false));
    FilterPartition(IterEntries(m, None));
  }

  lemma {:induction false} FilterPartition(ps: seq<(string, Smarts)>)
    ensures |FilterPairs(ps, Some(true))| + |FilterPairs(ps, Some(false))| == |ps|
  {
    if ps != [] {
      FilterPartition(ps[1..]);
    }
  }

  // ---------------------------------------------------------------------------
  // Grouping by residue (`rdmols`)

  /** `d[resname].append(x)` on a dict whose missing keys start as empty lists. */
  function AppendAt(acc: OMap<string, seq<Smarts>>, resname: string, x: Smarts): OMap<string, seq<Smarts>>
  {
    if acc == [] then [(resname, [x])]
    else if acc[0].0 == resname then [(resname, acc[0].1 + [x])] + acc[1..]
    else [acc[0]] + AppendAt(acc[1..], resname, x)
  }

  /** The loop of `rdmols`: append each pair's fragment under its residue name. */
  function AppendAll(acc: OMap<string, seq<Smarts>>, ps: seq<(string, Smarts)>): OMap<string, seq<Smarts>>
    decreases |ps|
  {
    if ps == [] then acc else AppendAll(AppendAt(acc, ps[0].0, ps[0].1), ps[1..])
  }

  /** `rdmols(term_only)`: the filtered fragments grouped under their residue names. */
  function Rdmols(g: MonomerGroup, termOnly: Option<bool>): OMap<string, seq<Smarts>>
  {
    AppendAll([], IterRdmols(g, termOnly))
  }

  /** The reference grouping: each residue, in order, with its filtered list; residues
      whose filtered list is empty are left out. */
  function GroupedSpec(m: OMap<string, seq<Smarts>>, termOnly: Option<bool>): OMap<string, seq<Smarts>>
  {
    if m == [] then []
    else
      var s := Sel(m[0].1, termOnly);
      (if s == [] then [] else [(m[0].0, s)]) + GroupedSpec(m[1..], termOnly)
  }

  /** The reference grouping only holds residues of the map, each with a non-empty list. */
  lemma {:induction false} GroupedKeys(m: OMap<string, seq<Smarts>>, termOnly: Option<bool>)
    ensures forall i :: 0 <= i < |GroupedSpec(m, termOnly)| ==>
      GroupedSpec(m, termOnly)[i].1 != [] && GroupedSpec(m, termOnly)[i].0 in Keys(m)
  {
    if m != [] {
      GroupedKeys(m[1..], termOnly);
      assert forall k :: k in Keys(m[1..]) ==> k in Keys(m);
    }
  }

  lemma {:induction false} AppendAllConcat(acc: OMap<string, seq<Smarts>>, p: seq<(string, Smarts)>, q: seq<(string, Smarts)>)
    ensures AppendAll(acc, p + q) == AppendAll(AppendAll(acc, p), q)
    decreases |p|
  {
    if p == [] {
      assert p + q == q;
    } else {
      var acc' := AppendAt(acc, p[0].0, p[0].1);
      assert (p + q)[0] == p[0] && (p + q)[1..] == p[1..] + q;
      assert AppendAll(acc, p + q) == AppendAll(acc', p[1..] + q);
      assert AppendAll(acc, p) == AppendAll(acc', p[1..]);
      AppendAllConcat(acc', p[1..], q);
    }
  }

  lemma {:induction false} AppendAtLast(acc: OMap<string, seq<Smarts>>, resname: string, ys: seq<Smarts>, x: Smarts)
    requires resname !in Keys(acc)
    ensures AppendAt(acc + [(resname, ys)], resname, x) == acc + [(resname, ys + [x])]
  {
    if acc != [] {
      assert Keys(acc) == [acc[0].0] + Keys(acc[1..]);
      assert (acc + [(resname, ys)])[1..] == acc[1..] + [(resname, ys)];
      AppendAtLast(acc[1..], resname, ys, x);
    }
  }

  /** Appending a run of one residue's fragments after that residue's entry extends it. */
  lemma {:induction false} AppendRun(acc: OMap<string, seq<Smarts>>, resname: string, ys: seq<Smarts>, xs: seq<Smarts>)
    requires resname !in Keys(acc)
    ensures AppendAll(acc + [(resname, ys)], Tag(resname, xs)) == acc + [(resname, ys + xs)]
    decreases |xs|
  {
    if xs == [] {
      assert ys + xs == ys;
    } else {
      AppendAtLast(acc, resname, ys, xs[0]);
      assert Tag(resname, xs)[1..] == Tag(resname, xs[1..]);
      AppendRun(acc, resname, ys + [xs[0]], xs[1..]);
      assert (ys + [xs[0]]) + xs[1..] == ys + xs;
    }
  }

  /** Appending a run of a new residue's fragments adds one entry at the end. */
  lemma {:induction false} AppendNewRun(acc: OMap<string, seq<Smarts>>, resname: string, xs: seq<Smarts>)
    requires resname !in Keys(acc)
    ensures AppendAll(acc, Tag(resname, xs)) == if xs == [] then acc else acc + [(resname, xs)]
  {
    if xs != [] {
      AppendAtNew(acc, resname, xs[0]);
      assert Tag(resname, xs)[1..] == Tag(resname, xs[1..]);
      AppendRun(acc, resname, [xs[0]], xs[1..]);
      assert [xs[0]] + xs[1..] == xs;
    }
  }

  lemma {:induction false} AppendAtNew(acc: OMap<string, seq<Smarts>>, resname: string, x: Smarts)
    requires resname !in Keys(acc)
    ensures AppendAt(acc, resname, x) == acc + [(resname, [x])]
  {
    if acc != [] {
      assert acc[0].0 != resname by {
        assert Keys(acc)[0] == acc[0].0;
      }
      assert resname !in Keys(acc[1..]) by {
        forall i | 0 <= i < |acc| - 1
          ensures Keys(acc[1..])[i] != resname
        {
          assert Keys(acc)[i + 1] == Keys(acc[1..])[i];
        }
      }
      AppendAtNew(acc[1..], resname, x);
      assert AppendAt(acc, resname, x) == [acc[0]] + (acc[1..] + [(resname, [x])]);
      assert acc == [acc[0]] + acc[1..];
    }
  }

  lemma {:induction false} AppendAllGroups(acc: OMap<string, seq<Smarts>>, m: OMap<string, seq<Smarts>>, termOnly: Option<bool>)
    requires DistinctKeys(m)
    requires forall k :: k in Keys(m) ==> k !in Keys(acc)
    ensures AppendAll(acc, IterEntries(m, termOnly)) == acc + GroupedSpec(m, termOnly)
    decreases |m|
  {
    if m == [] {
      assert acc + [] == acc;
    } else {
      var s := Sel(m[0].1, termOnly);
      var acc' := if s == [] then acc else acc + [(m[0].0, s)];
      FreshAccumulator(acc, m, s);
      AppendAllGroups(acc', m[1..], termOnly);
      AppendAllGroupsStep(acc, m, termOnly);
    }
  }

  /** One residue of the grouping loop, given the result for the remaining residues. */
  lemma {:induction false} AppendAllGroupsStep(acc: OMap<string, seq<Smarts>>, m: OMap<string, seq<Smarts>>, termOnly: Option<bool>)
    requires m != [] && m[0].0 !in Keys(acc)
    requires var s := Sel(m[0].1, termOnly);
      var acc' := if s == [] then acc else acc + [(m[0].0, s)];
      AppendAll(acc', IterEntries(m[1..], termOnly)) == acc' + GroupedSpec(m[1..], termOnly)
    ensures AppendAll(acc, IterEntries(m, termOnly)) == acc + GroupedSpec(m, termOnly)
  {
    var s := Sel(m[0].1, termOnly);
    var acc' := if s == [] then acc else acc + [(m[0].0, s)];
    IterResidueIsTagged(m[0].0, m[0].1, termOnly);
    AppendNewRun(acc, m[0].0, s);
    GroupedSplit(acc, m, termOnly);
    ChainStep(acc, acc', Tag(m[0].0, s), IterEntries(m[1..], termOnly), GroupedSpec(m[1..], termOnly),
              IterEntries(m, termOnly), GroupedSpec(m, termOnly));
  }

  /** The reference grouping of the first residue and the rest, after an accumulator. */
  lemma {:induction false} GroupedSplit(acc: OMap<string, seq<Smarts>>, m: OMap<string, seq<Smarts>>, termOnly: Option<bool>)
    requires m != []
    ensures var s := Sel(m[0].1, termOnly);
      var acc' := if s == [] then acc else acc + [(m[0].0, s)];
      acc' + GroupedSpec(m[1..], termOnly) == acc + GroupedSpec(m, termOnly)
  {
    var s := Sel(m[0].1, termOnly);
    var rest := GroupedSpec(m[1..], termOnly);
    if s != [] {
      assert GroupedSpec(m, termOnly) == [(m[0].0, s)] + rest;
      assert (acc + [(m[0].0, s)]) + rest == acc + ([(m[0].0, s)] + rest);
    }
  }

  /** Grouping a concatenation: the head run, then the tail on the intermediate result. */
  lemma {:induction false} ChainStep(acc: OMap<string, seq<Smarts>>, acc': OMap<string, seq<Smarts>>,
                  head: seq<(string, Smarts)>, tail: seq<(string, Smarts)>, rest: OMap<string, seq<Smarts>>,
                  full: seq<(string, Smarts)>, spec: OMap<string, seq<Smarts>>)
    requires full == head + tail
    requires AppendAll(acc, head) == acc'
    requires AppendAll(acc', tail) == acc' + rest
    requires acc' + rest == acc + spec
    ensures AppendAll(acc, full) == acc + spec
  {
    AppendAllConcat(acc, head, tail);
  }

  lemma {:induction false} FreshAccumulator(acc: OMap<string, seq<Smarts>>, m: OMap<string, seq<Smarts>>, s: seq<Smarts>)
    requires m != [] && DistinctKeys(m)
    requires forall k :: k in Keys(m) ==> k !in Keys(acc)
    ensures var acc' := if s == [] then acc else acc + [(m[0].0, s)];
      DistinctKeys(m[1..]) && m[0].0 !in Keys(acc) && forall k :: k in Keys(m[1..]) ==> k !in Keys(acc')
  {
    assert forall k :: k in Keys(m[1..]) ==> k in Keys(m) && k != m[0].0;
    assert Keys(acc + [(m[0].0, s)]) == Keys(acc) + [m[0].0];
  }

  /** `rdmols`: residues in insertion order, each with exactly its filtered fragment list
      in list order; residues without a matching fragment are absent. */
  lemma {:induction false} RdmolsGroups(g: MonomerGroup, termOnly: Option<bool>)
    requires DistinctKeys(g.monomers)
    ensures Rdmols(g, termOnly) == GroupedSpec(g.monomers, termOnly)
  {
    AppendAllGroups([], g.monomers, termOnly);
  }

  /** What a lookup in the reference grouping returns. */
  lemma {:induction false} GroupedLookup(m: OMap<string, seq<Smarts>>, termOnly: Option<bool>, resname: string)
    requires DistinctKeys(m)
    ensures Lookup(GroupedSpec(m, termOnly), resname) ==
      match Lookup(m, resname)
      case None => None
      case Some(xs) => if Sel(xs, termOnly) == [] then None else Some(Sel(xs, termOnly))
  {
    if m != [] {
      var s := Sel(m[0].1, termOnly);
      var rest := GroupedSpec(m[1..], termOnly);
      GroupedLookup(m[1..], termOnly, resname);
      if s != [] {
        assert GroupedSpec(m, termOnly) == [(m[0].0, s)] + rest;
        assert Lookup(GroupedSpec(m, termOnly), resname) ==
          if m[0].0 == resname then Some(s) else Lookup(rest, resname);
      } else {
        assert GroupedSpec(m, termOnly) == rest;
      }
      if m[0].0 == resname {
        assert resname !in Keys(m[1..]);
        GroupedKeys(m[1..], termOnly);
        LookupFound(m[1..], resname);
        LookupFound(rest, resname);
      }
    }
  }

  /** `resname in rdmols(term_only)` holds exactly when the residue's filtered list is
      non-empty, and the stored list is then that filtered list. */
  lemma {:induction false} RdmolsLookup(g: MonomerGroup, termOnly: Option<bool>, resname: string)
    requires DistinctKeys(g.monomers)
    ensures Lookup(Rdmols(g, termOnly), resname) ==
      match Lookup(g.monomers, resname)
      case None => None
      case Some(xs) => if Sel(xs, termOnly) == [] then None else Some(Sel(xs, termOnly))
  {
    RdmolsGroups(g, termOnly);
    GroupedLookup(g.monomers, termOnly, resname);
  }

  // ---------------------------------------------------------------------------
  // Counting and classification

  /** The total length of all fragment lists. */
  function TotalFragments(m: OMap<string, seq<Smarts>>): nat
  {
    if m == [] then 0 else |m[0].1| + TotalFragments(m[1..])
  }

  /** `n_monomers`: every fragment counts, variants under one name included. */
  function NMonomers(g: MonomerGroup): (n: nat)
    ensures n == TotalFragments(g.monomers)
  {
    IterEntriesCount(g.monomers);
    |IterRdmols(g, None)|
  }

  lemma {:induction false} IterEntriesCount(m: OMap<string, seq<Smarts>>)
    ensures |IterEntries(m, None)| == TotalFragments(m)
  {
    if m != [] {
      IterEntriesAll(m);
      IterEntriesCount(m[1..]);
    }
  }

  /** One more pair adds one to exactly one of the two filtered counts. */
  lemma {:induction false} CountStep(all: seq<(string, Smarts)>, i: nat)
    requires i < |all|
    ensures |FilterPairs(all[..i + 1], Some(true))|
         == |FilterPairs(all[..i], Some(true))| + (if IsTerminal(all[i].1) then 1 else 0)
    ensures |FilterPairs(all[..i + 1], Some(false))|
         == |FilterPairs(all[..i], Some(false))| + (if IsTerminal(all[i].1) then 0 else 1)
  {
    assert all[..i + 1] == all[..i] + [all[i]];
    FilterPairsAppend(all[..i], [all[i]], Some(true));
    FilterPairsAppend(all[..i], [all[i]], Some(false));
  }

  /** `num_mid_and_term`: one pass over all fragments, counting terminal ones and the
      rest; the counts are those of the two filtered iterations and sum to `n_monomers`. */
  method NumMidAndTerm(g: MonomerGroup) returns (mid: nat, term: nat)
    ensures mid == |IterRdmols(g, Some(false))|
    ensures term == |IterRdmols(g, Some(true))|
    ensures mid + term == NMonomers(g)
  {
    var all := IterRdmols(g, None);
    mid, term := 0, 0;
    for i := 0 to |all|
      invariant mid == |FilterPairs(all[..i], Some(false))|
      invariant term == |FilterPairs(all[..i], Some(true))|
    {
      CountStep(all, i);
      if IsTerminal(all[i].1) {
        term := term + 1;
      } else {
        mid := mid + 1;
      }
    }
    assert all[..|all|] == all;
    IterEntriesFilters(g.monomers, Some(false));
    IterEntriesFilters(g.monomers, Some(true));
    IterEntriesPartition(g.monomers);
  }

  /** Some fragment of the group, under any residue, has the property of `ports > 2`. */
  ghost predicate HasBranchPoint(g: MonomerGroup) {
    exists i, x :: 0 <= i < |g.monomers| && x in g.monomers[i].1 && NumPorts(x) > 2
  }

  /** `is_branchable`: some fragment has more than two ports. */
  function IsBranchable(g: MonomerGroup): (b: bool)
    ensures b <==> HasBranchPoint(g)
  {
    var all := IterRdmols(g, None);
    IterEntriesAll(g.monomers);
    var b := exists j :: 0 <= j < |all| && NumPorts(all[j].1) > 2;
    assert b ==> HasBranchPoint(g) by {
      if b {
        var j :| 0 <= j < |all| && NumPorts(all[j].1) > 2;
        assert all[j] in all;
      }
    }
    assert HasBranchPoint(g) ==> b by {
      if HasBranchPoint(g) {
        var i, x :| 0 <= i < |g.monomers| && x in g.monomers[i].1 && NumPorts(x) > 2;
        assert (g.monomers[i].0, x) in all;
      }
    }
    b
  }

  /** `is_linear`: every fragment of every residue has at most two ports. */
  function IsLinear(g: MonomerGroup): (b: bool)
    ensures b <==> forall i, x :: 0 <= i < |g.monomers| && x in g.monomers[i].1 ==> NumPorts(x) <= 2
  {
    !IsBranchable(g)
  }
}
