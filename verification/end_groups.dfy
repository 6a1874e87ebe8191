/** Choosing the head and tail end groups of a linear chain. With a declared orientation
    each role draws from its residue's terminal fragments through a wrap-around cursor;
    without one the first (at most two) terminal fragments of the group become head and
    tail, in iteration order. */
module EndGroups {
  import opened Errors
  import opened OrderedMaps
  import opened Monomers
  import opened Queries
  import opened Cursors

  /** The residue name and the terminal fragment chosen for a role. */
  datatype EndGroup = EndGroup(resname: string, frag: Smarts)

  /** The roles an automatic assignment hands out, in order. */
  const Roles: seq<string> := ["head", "tail"]

  /** The orientation counts as declared when it is non-empty and names exactly the
      roles head and tail. */
  predicate OrientDeclared(g: MonomerGroup) {
    && |g.termOrient| > 0
    && (set i | 0 <= i < |g.termOrient| :: g.termOrient[i].0) == {"head", "tail"}
  }

  /** The declared roles as draw requests `(residue name, role)`, in declaration order. */
  function Swap(t: OMap<string, string>): (r: seq<(string, string)>)
    ensures |r| == |t|
    ensures forall i :: 0 <= i < |t| ==> r[i] == (t[i].1, t[i].0)
  {
    seq(|t|, i requires 0 <= i < |t| => (t[i].1, t[i].0))
  }

  /** The role-keyed dict built from the draws. */
  function Labelled(draws: seq<Draw>): (r: OMap<string, EndGroup>)
    ensures |r| == |draws|
    ensures forall i :: 0 <= i < |draws| ==> r[i] == (draws[i].role, EndGroup(draws[i].resname, draws[i].frag))
  {
    seq(|draws|, i requires 0 <= i < |draws| => (draws[i].role, EndGroup(draws[i].resname, draws[i].frag)))
  }

  /** `zip(['head', 'tail'], pairs)` as a role-keyed dict. */
  function AutoEnds(ps: seq<(string, Smarts)>): OMap<string, EndGroup>
  {
    var n := if |ps| < 2 then |ps| else 2;
    seq(n, i requires 0 <= i < n => (Roles[i], EndGroup(ps[i].0, ps[i].1)))
  }

  /** `linear_end_groups`: the role-keyed end groups, or the exception of a declared role
      whose residue has no terminal fragment. */
  function LinearEndGroups(g: MonomerGroup): Result<OMap<string, EndGroup>>
  {
    if OrientDeclared(g) then
      var draws :- DrawFrom(Rdmols(g, Some(true)), Swap(g.termOrient), true, map[]);
      Success(Labelled(draws))
    else
      Success(AutoEnds(IterRdmols(g, Some(true))))
  }

  /** The terminal fragments of one residue, in list order; empty for an unknown residue. */
  function Terminals(g: MonomerGroup, resname: string): (xs: seq<Smarts>)
    ensures forall x :: x in xs <==> Lookup(g.monomers, resname).Some? && x in Lookup(g.monomers, resname).value && IsTerminal(x)
  {
    match Lookup(g.monomers, resname)
    case None => []
    case Some(xs) => Sel(xs, Some(true))
  }

  /** A residue's terminal fragments keep their list order and multiplicity: they are the
      subsequence of exactly the terminal entries of its list. */
  lemma {:induction false} TerminalsOrder(g: MonomerGroup, resname: string)
    ensures Lookup(g.monomers, resname).None? ==> Terminals(g, resname) == []
    ensures Lookup(g.monomers, resname).Some? ==>
      var xs := Terminals(g, resname); var ys := Lookup(g.monomers, resname).value;
      && IsSubseq(xs, ys)
      && forall x :: multiset(xs)[x] == if IsTerminal(x) then multiset(ys)[x] else 0
  {
    if Lookup(g.monomers, resname).Some? {
      SelOrder(Lookup(g.monomers, resname).value, Some(true));
    }
  }

  /** A draw from the terminal lists succeeds exactly when the residue has a terminal
      fragment under the cursor (any cursor, when the draw wraps around); it yields that
      fragment, and otherwise raises `KeyError` for a residue without terminal fragments
      and `StopIteration` for an exhausted one. */
  lemma {:induction false} TerminalDraw(g: MonomerGroup, resname: string, c: nat, cyclic: bool)
    requires DistinctKeys(g.monomers)
    ensures var pools := Rdmols(g, Some(true)); var xs := Terminals(g, resname);
      && (Ready(pools, resname, c, cyclic) <==> xs != [] && (cyclic || c < |xs|))
      && (Ready(pools, resname, c, cyclic) ==> Pick(pools, resname, c, cyclic) == xs[if cyclic then c % |xs| else c])
      && Refusal(pools, resname) == if xs == [] then KeyError(resname) else StopIteration
  {
    RdmolsLookup(g, Some(true), resname);
  }

  /** The fragment the `i`-th declared role receives: its residue's terminal fragments,
      indexed by how many earlier roles named the same residue, wrapping around. */
  function DeclaredPick(g: MonomerGroup, i: nat): Smarts
    requires i < |g.termOrient| && Terminals(g, g.termOrient[i].1) != []
  {
    var xs := Terminals(g, g.termOrient[i].1);
    xs[Prior(Swap(g.termOrient), i) % |xs|]
  }

  /** With a declared orientation the end groups exist exactly when every declared residue
      has a terminal fragment; each role is then paired, in declaration order, with its
      residue and that residue's next terminal fragment under a wrap-around cursor. */
  lemma {:induction false} DeclaredEnds(g: MonomerGroup)
    requires DistinctKeys(g.monomers) && OrientDeclared(g)
    ensures var t := g.termOrient;
      LinearEndGroups(g).Success? <==> forall i :: 0 <= i < |t| ==> Terminals(g, t[i].1) != []
    ensures var t := g.termOrient; var r := LinearEndGroups(g);
      r.Success? ==> |r.value| == |t| && forall i :: 0 <= i < |t| ==>
        Terminals(g, t[i].1) != [] && r.value[i] == (t[i].0, EndGroup(t[i].1, DeclaredPick(g, i)))
  {
    var t := g.termOrient;
    var reqs := Swap(t);
    var pools := Rdmols(g, Some(true));
    DrawFromSucceeds(pools, reqs, true, map[]);
    forall i | 0 <= i < |t|
      ensures ReadyAt(pools, reqs, true, map[], i) <==> Terminals(g, t[i].1) != []
      ensures ReadyAt(pools, reqs, true, map[], i) ==>
        DrawAt(pools, reqs, true, map[], i) == Draw(t[i].0, t[i].1, DeclaredPick(g, i))
    {
      TerminalDraw(g, t[i].1, Prior(reqs, i), true);
    }
  }

  /** With a declared orientation, a role whose residue has no terminal fragment makes
      the selection fail with `KeyError` naming the first such residue. */
  lemma {:induction false} DeclaredEndsMissing(g: MonomerGroup)
    requires DistinctKeys(g.monomers) && OrientDeclared(g)
    ensures var t := g.termOrient; var r := LinearEndGroups(g);
      r.Failure? ==> (exists i :: 0 <= i < |t| && Terminals(g, t[i].1) == [] && r.error == KeyError(t[i].1)
                                 && forall j :: 0 <= j < i ==> Terminals(g, t[j].1) != [])
  {
    var t := g.termOrient;
    var reqs := Swap(t);
    var pools := Rdmols(g, Some(true));
    DrawFromFails(pools, reqs, true, map[]);
    if LinearEndGroups(g).Failure? {
      var i :| 0 <= i < |reqs| && FirstUnready(pools, reqs, true, map[], i)
        && DrawFrom(pools, reqs, true, map[]).error == Refusal(pools, reqs[i].0);
      TerminalDraw(g, t[i].1, Prior(reqs, i), true);
      forall j | 0 <= j < i
        ensures Terminals(g, t[j].1) != []
      {
        assert ReadyAt(pools, reqs, true, map[], j);
        TerminalDraw(g, t[j].1, Prior(reqs, j), true);
      }
    }
  }

  /** A residue declared for both roles, in either order, gives the role declared first
      its first terminal fragment and the other role its second, wrapping round to the
      first when it has only one: a single terminal variant serves both ends. */
  lemma {:induction false} SharedResidue(g: MonomerGroup, resname: string, first: string, second: string)
    requires DistinctKeys(g.monomers)
    requires g.termOrient == [(first, resname), (second, resname)]
    requires {first, second} == {"head", "tail"}
    requires Terminals(g, resname) != []
    ensures var xs := Terminals(g, resname);
      LinearEndGroups(g) == Success([(first, EndGroup(resname, xs[0])),
                                     (second, EndGroup(resname, xs[1 % |xs|]))])
  {
    var xs := Terminals(g, resname);
    BothRolesDeclared(g.termOrient, resname, first, second);
    assert forall i :: 0 <= i < |g.termOrient| ==> g.termOrient[i].1 == resname;
    DeclaredEnds(g);
    var r := LinearEndGroups(g).value;
    assert LinearEndGroups(g).Success?;
    assert |r| == 2;
    assert r[0] == (first, EndGroup(resname, xs[0]));
    assert r[1] == (second, EndGroup(resname, xs[1 % |xs|]));
    assert r == [r[0], r[1]];
  }

  lemma {:induction false} BothRolesDeclared(t: OMap<string, string>, resname: string, first: string, second: string)
    requires t == [(first, resname), (second, resname)]
    requires {first, second} == {"head", "tail"}
    ensures (set i | 0 <= i < |t| :: t[i].0) == {"head", "tail"}
    ensures Prior(Swap(t), 0) == 0 && Prior(Swap(t), 1) == 1
  {
    assert t[0].0 == first && t[1].0 == second;
    var roles := set i | 0 <= i < |t| :: t[i].0;
    assert roles == {first, second} by {
      assert first in roles by { assert t[0].0 == first; }
      assert second in roles by { assert t[1].0 == second; }
    }
    var reqs := Swap(t);
    assert reqs[..1] == [(resname, first)];
    assert reqs[..1][1..] == [];
    assert CountKey(reqs[..1], resname) == 1 + CountKey(reqs[..1][1..], resname);
  }

  /** Without a declared orientation the selection never fails: head and tail go to the
      first and second terminal (resname, fragment) pairs in iteration order, as many as
      exist up to two; each chosen fragment is terminal and lies in the list of the residue
      it is reported with. */
  lemma {:induction false} AutoEndGroups(g: MonomerGroup)
    requires !OrientDeclared(g)
    ensures var ps := IterRdmols(g, Some(true)); var r := LinearEndGroups(g);
      && r.Success?
      && |r.value| == (if |ps| < 2 then |ps| else 2)
      && forall i :: 0 <= i < |r.value| ==> r.value[i] == (Roles[i], EndGroup(ps[i].0, ps[i].1))
    ensures var r := LinearEndGroups(g).value;
      forall i :: 0 <= i < |r| ==>
        && IsTerminal(r[i].1.frag)
        && exists k :: 0 <= k < |g.monomers| && g.monomers[k].0 == r[i].1.resname && r[i].1.frag in g.monomers[k].1
  {
    TerminalPairs(g);
  }

  /** Every terminal-only pair is a terminal fragment of the residue it names. */
  lemma {:induction false} TerminalPairs(g: MonomerGroup)
    ensures var ps := IterRdmols(g, Some(true));
      forall i :: 0 <= i < |ps| ==>
        && IsTerminal(ps[i].1)
        && exists k :: 0 <= k < |g.monomers| && g.monomers[k].0 == ps[i].0 && ps[i].1 in g.monomers[k].1
  {
    var ps := IterRdmols(g, Some(true));
    IterRdmolsFiltered(g, Some(true));
    IterEntriesAll(g.monomers);
    forall i | 0 <= i < |ps|
      ensures IsTerminal(ps[i].1)
      ensures exists k :: 0 <= k < |g.monomers| && g.monomers[k].0 == ps[i].0 && ps[i].1 in g.monomers[k].1
    {
      assert ps[i] in ps;
    }
  }

  /** Without a declared orientation there is no end group exactly when the group has no
      terminal fragment, and the head is a terminal fragment of the residue it names. */
  lemma {:induction false} AutoHead(g: MonomerGroup)
    requires !OrientDeclared(g)
    ensures var r := LinearEndGroups(g).value;
      r == [] <==> forall i, x :: 0 <= i < |g.monomers| && x in g.monomers[i].1 ==> !IsTerminal(x)
    ensures var r := LinearEndGroups(g).value;
      r != [] ==> (&& r[0].0 == "head" && IsTerminal(r[0].1.frag)
                   && exists i :: 0 <= i < |g.monomers| && g.monomers[i].0 == r[0].1.resname
                                  && r[0].1.frag in g.monomers[i].1)
  {
    var ps := IterRdmols(g, Some(true));
    AutoEndGroups(g);
    IterRdmolsFiltered(g, Some(true));
    IterEntriesAll(g.monomers);
    if ps != [] {
      assert ps[0] in ps;
    } else {
      forall i, x | 0 <= i < |g.monomers| && x in g.monomers[i].1
        ensures !IsTerminal(x)
      {
        assert (g.monomers[i].0, x) in IterRdmols(g, None);
        assert (g.monomers[i].0, x) !in ps;
      }
    }
  }
}
