/** The linear-chain assembly plan: the checks, the orientation used for the end groups,
    the middle and end registrations, and the replication count handed to the external
    chain builder. `BuildLinearPolymer` follows the source as written;
    `BuildLinearPolymerFixed` reads the orientation as (residue name, role) entries in
    both modes and requires two terminal fragments when inferring it. */
module Building {
  import opened Errors
  import opened OrderedMaps
  import opened Monomers
  import opened Queries
  import opened Cursors
  import opened EndGroups

  /** A middle fragment registered with the chain: its residue, the fragment, the
      sequence symbol it was paired with, and the atom indices of its ports. */
  datatype MiddleUnit = MiddleUnit(resname: string, frag: Smarts, key: char, indices: seq<nat>)

  /** An end group registered with the chain: its residue, the fragment, the one port it
      bonds through, and its role label. */
  datatype EndUnit = EndUnit(resname: string, frag: Smarts, port: nat, role: string)

  /** What the external chain builder is asked to do: the registered units, how many
      times to replicate the middle template, and the flags passed through. */
  datatype Plan = Plan(middles: seq<MiddleUnit>, ends: seq<EndUnit>, replications: int,
                       sequence: string, addHydrogens: bool, energyMinimize: bool)

  /** `zip(middle pairs, sequence)`: each middle fragment paired with one symbol, as many
      as the shorter of the two. */
  function Middles(ps: seq<(string, Smarts)>, sequence: string): seq<MiddleUnit>
  {
    var n := if |ps| < |sequence| then |ps| else |sequence|;
    seq(n, i requires 0 <= i < n => MiddleUnit(ps[i].0, ps[i].1, sequence[i], ps[i].1.linkers))
  }

  /** Each drawn end group attached by the last of its port indices (`pop()` on the list
      of linker ids), failing on a fragment without ports. */
  function Attach(draws: seq<Draw>): (r: Result<seq<EndUnit>>)
    ensures r.Failure? ==> r.error == PopFromEmpty
    ensures r.Failure? <==> exists i :: 0 <= i < |draws| && draws[i].frag.linkers == []
    ensures r.Success? ==> |r.value| == |draws| && forall i :: 0 <= i < |draws| ==>
      && draws[i].frag.linkers != []
      && r.value[i] == EndUnit(draws[i].resname, draws[i].frag, Last(draws[i].frag.linkers), draws[i].role)
  {
    if draws == [] then Success([])
    else
      var d := draws[0];
      if d.frag.linkers == [] then Failure(PopFromEmpty)
      else
        var rest :- Attach(draws[1..]);
        Success([EndUnit(d.resname, d.frag, Last(d.frag.linkers), d.role)] + rest)
  }

  /** The last element of a non-empty list: what `pop()` removes and returns. */
  function Last(xs: seq<nat>): nat
    requires xs != []
  {
    xs[|xs| - 1]
  }

  /** Registration and assembly for a given orientation, read as (residue name, role)
      entries: middle units, then one end group per entry drawn in order from a
      non-wrapping iterator over its residue's terminal fragments, then `DOP - 2`
      replications. */
  function Assemble(g: MonomerGroup, orient: seq<(string, string)>, dop: int, sequence: string,
                    addHs: bool, minimize: bool): (r: Result<Plan>)
    ensures r.Failure? ==> r.error.KeyError? || r.error == StopIteration || r.error == PopFromEmpty
  {
    var middles := Middles(IterRdmols(g, Some(false)), sequence);
    var draws :- DrawFrom(Rdmols(g, Some(true)), orient, false, map[]);
    var ends :- Attach(draws);
    Success(Plan(middles, ends, dop - 2, sequence, addHs, minimize))
  }

  /** The inferred orientation map `{resname: role}` built by assigning the first two
      terminal pairs the roles head and tail, one after the other. */
  function AutoOrient(ps: seq<(string, Smarts)>): OMap<string, string>
  {
    var n := if |ps| < 2 then |ps| else 2;
    Union([], seq(n, i requires 0 <= i < n => (ps[i].0, Roles[i])))
  }

  /** `build_linear_polymer` as written. `validOrient` stands for the group's
      `has_valid_linear_term_orient` attribute, which the group model does not define;
      the declared orientation (role to residue name) is then iterated as if it mapped
      residue names to roles. */
  function BuildLinearPolymer(g: MonomerGroup, dop: int, sequence: string, addHs: bool,
                              minimize: bool, validOrient: bool): (r: Result<Plan>)
    ensures r == Failure(MorphologyError) <==> HasBranchPoint(g)
    ensures r.Failure? && !HasBranchPoint(g) ==> r.error.KeyError? || r.error == StopIteration || r.error == PopFromEmpty
  {
    if !IsLinear(g) then Failure(MorphologyError)
    else
      var orient := if validOrient then g.termOrient else AutoOrient(IterRdmols(g, Some(true)));
      Assemble(g, orient, dop, sequence, addHs, minimize)
  }

  /** The inferred orientation as (residue name, role) entries: the first two terminal
      pairs, or `StopIteration` when there are fewer than two. */
  function AutoRequests(ps: seq<(string, Smarts)>): (r: Result<seq<(string, string)>>)
    ensures r.Success? <==> |ps| >= 2
    ensures r.Success? ==> |r.value| == 2 && forall i :: 0 <= i < 2 ==> r.value[i] == (ps[i].0, Roles[i])
    ensures r.Failure? ==> r.error == StopIteration
  {
    if |ps| < 2 then Failure(StopIteration) else Success([(ps[0].0, "head"), (ps[1].0, "tail")])
  }

  /** The corrected builder: the declared orientation is swapped into (residue name, role)
      entries, and the inferred one keeps both roles even when they share a residue. */
  function BuildLinearPolymerFixed(g: MonomerGroup, dop: int, sequence: string, addHs: bool,
                                   minimize: bool, validOrient: bool): (r: Result<Plan>)
    ensures r == Failure(MorphologyError) <==> HasBranchPoint(g)
    ensures r.Failure? && !HasBranchPoint(g) ==> r.error.KeyError? || r.error == StopIteration || r.error == PopFromEmpty
  {
    if !IsLinear(g) then Failure(MorphologyError)
    else
      var orient :- if validOrient then Success(Swap(g.termOrient)) else AutoRequests(IterRdmols(g, Some(true)));
      Assemble(g, orient, dop, sequence, addHs, minimize)
  }

  // ---------------------------------------------------------------------------
  // Registration

  /** The port of a terminal fragment. */
  function OnlyPort(s: Smarts): nat
    requires IsTerminal(s)
  {
    s.linkers[0]
  }

  /** With every drawn fragment terminal, attaching never fails and each end group bonds
      through its only port. */
  lemma {:induction false} AttachTerminal(draws: seq<Draw>)
    requires forall i :: 0 <= i < |draws| ==> IsTerminal(draws[i].frag)
    ensures Attach(draws).Success?
    ensures |Attach(draws).value| == |draws|
    ensures forall i :: 0 <= i < |draws| ==>
      Attach(draws).value[i] == EndUnit(draws[i].resname, draws[i].frag, OnlyPort(draws[i].frag), draws[i].role)
  {
  }

  /** The fragment entry `i` of an orientation draws: the residue's terminal fragment at
      the position given by the earlier entries for the same residue. */
  function EndPick(g: MonomerGroup, orient: seq<(string, string)>, i: nat): Smarts
    requires i < |orient| && Prior(orient, i) < |Terminals(g, orient[i].0)|
  {
    Terminals(g, orient[i].0)[Prior(orient, i)]
  }

  /** Every entry of the orientation gets the next unused terminal fragment of its
      residue, so registration succeeds exactly when no residue is asked for more
      terminal fragments than it has. */
  predicate EnoughTerminals(g: MonomerGroup, orient: seq<(string, string)>) {
    forall i :: 0 <= i < |orient| ==> Prior(orient, i) < |Terminals(g, orient[i].0)|
  }

  /** The non-wrapping draws for an orientation succeed exactly when no residue is asked
      for more terminal fragments than it has; entry `i` then draws `EndPick(g, orient, i)`,
      a terminal fragment. */
  lemma {:induction false} DrawsReady(g: MonomerGroup, orient: seq<(string, string)>)
    requires DistinctKeys(g.monomers)
    ensures var d := DrawFrom(Rdmols(g, Some(true)), orient, false, map[]);
      d.Success? <==> EnoughTerminals(g, orient)
    ensures var d := DrawFrom(Rdmols(g, Some(true)), orient, false, map[]);
      d.Success? ==> |d.value| == |orient| && forall i :: 0 <= i < |orient| ==>
        && Prior(orient, i) < |Terminals(g, orient[i].0)|
        && IsTerminal(EndPick(g, orient, i))
        && d.value[i] == Draw(orient[i].1, orient[i].0, EndPick(g, orient, i))
  {
    var pools := Rdmols(g, Some(true));
    DrawFromSucceeds(pools, orient, false, map[]);
    forall i | 0 <= i < |orient|
      ensures ReadyAt(pools, orient, false, map[], i) <==> Prior(orient, i) < |Terminals(g, orient[i].0)|
      ensures ReadyAt(pools, orient, false, map[], i) ==>
        && IsTerminal(EndPick(g, orient, i))
        && DrawAt(pools, orient, false, map[], i) == Draw(orient[i].1, orient[i].0, EndPick(g, orient, i))
    {
      TerminalDraw(g, orient[i].0, Prior(orient, i), false);
      if ReadyAt(pools, orient, false, map[], i) {
        assert EndPick(g, orient, i) in Terminals(g, orient[i].0);
      }
    }
  }

  /** Assembly succeeds exactly when every orientation entry finds an unused terminal
      fragment of its residue; then there is one end group per entry, in order, carrying
      the entry's residue and role, bonding through the fragment's only port, and the
      plan asks for `DOP - 2` replications of the middle template, passing the sequence
      and flags through. */
  lemma {:induction false} AssembleSucceeds(g: MonomerGroup, orient: seq<(string, string)>, dop: int, sequence: string,
                         addHs: bool, minimize: bool)
    requires DistinctKeys(g.monomers)
    ensures var r := Assemble(g, orient, dop, sequence, addHs, minimize);
      r.Success? <==> EnoughTerminals(g, orient)
    ensures var r := Assemble(g, orient, dop, sequence, addHs, minimize);
      r.Success? ==> && |r.value.ends| == |orient|
                     && (forall i :: 0 <= i < |orient| ==>
                           && Prior(orient, i) < |Terminals(g, orient[i].0)|
                           && IsTerminal(EndPick(g, orient, i))
                           && r.value.ends[i] == EndUnit(orient[i].0, EndPick(g, orient, i),
                                                         OnlyPort(EndPick(g, orient, i)), orient[i].1))
                     && r.value.replications == dop - 2 && r.value.sequence == sequence
                     && r.value.addHydrogens == addHs && r.value.energyMinimize == minimize
  {
    DrawsReady(g, orient);
    var d := DrawFrom(Rdmols(g, Some(true)), orient, false, map[]);
    if d.Success? {
      AttachTerminal(d.value);
    }
  }

  /** Assembly fails at the first orientation entry without an unused terminal fragment:
      `KeyError` when its residue has no terminal fragment at all, `StopIteration` when
      the earlier entries used them up. */
  lemma {:induction false} AssembleFails(g: MonomerGroup, orient: seq<(string, string)>, dop: int, sequence: string,
                      addHs: bool, minimize: bool)
    requires DistinctKeys(g.monomers)
    ensures var r := Assemble(g, orient, dop, sequence, addHs, minimize);
      r.Failure? ==> (exists i :: 0 <= i < |orient| && Prior(orient, i) >= |Terminals(g, orient[i].0)|
                       && (forall j :: 0 <= j < i ==> Prior(orient, j) < |Terminals(g, orient[j].0)|)
                       && r.error == if Terminals(g, orient[i].0) == [] then KeyError(orient[i].0) else StopIteration)
  {
    var pools := Rdmols(g, Some(true));
    var r := Assemble(g, orient, dop, sequence, addHs, minimize);
    var d := DrawFrom(pools, orient, false, map[]);
    if r.Failure? {
      AssembleSucceeds(g, orient, dop, sequence, addHs, minimize);
      DrawsReady(g, orient);
      assert d.Failure?;
      DrawFromFails(pools, orient, false, map[]);
      var i :| 0 <= i < |orient| && FirstUnready(pools, orient, false, map[], i)
        && d.error == Refusal(pools, orient[i].0);
      TerminalDraw(g, orient[i].0, Prior(orient, i), false);
      forall j | 0 <= j < i
        ensures Prior(orient, j) < |Terminals(g, orient[j].0)|
      {
        assert ReadyAt(pools, orient, false, map[], j);
        TerminalDraw(g, orient[j].0, Prior(orient, j), false);
      }
    }
  }

  /** The middle units are the group's non-terminal fragments in iteration order, each
      with its residue name and port indices and paired with the next sequence symbol,
      as many as the shorter of the two supplies. */
  lemma {:induction false} MiddleRegistration(g: MonomerGroup, orient: seq<(string, string)>, dop: int, sequence: string,
                           addHs: bool, minimize: bool)
    ensures var r := Assemble(g, orient, dop, sequence, addHs, minimize);
      var ps := FilterPairs(IterRdmols(g, None), Some(false));
      r.Success? ==> && |r.value.middles| == (if |ps| < |sequence| then |ps| else |sequence|)
                     && forall i :: 0 <= i < |r.value.middles| ==>
                          && r.value.middles[i] == MiddleUnit(ps[i].0, ps[i].1, sequence[i], ps[i].1.linkers)
                          && !IsTerminal(r.value.middles[i].frag)
  {
    IterRdmolsFiltered(g, Some(false));
    var ps := IterRdmols(g, Some(false));
    forall i | 0 <= i < |ps|
      ensures !IsTerminal(ps[i].1)
    {
      assert ps[i] in ps;
    }
  }

  // ---------------------------------------------------------------------------
  // Orientation

  /** The inferred map as written: empty without terminal pairs, the first residue as
      head for one pair, and for two pairs head and tail on distinct residues, or a single
      tail entry when both pairs share a residue (the second assignment overwrites the
      first). */
  lemma {:induction false} AutoOrientShape(ps: seq<(string, Smarts)>)
    ensures AutoOrient(ps) ==
      if |ps| == 0 then []
      else if |ps| == 1 then [(ps[0].0, "head")]
      else if ps[0].0 == ps[1].0 then [(ps[0].0, "tail")]
      else [(ps[0].0, "head"), (ps[1].0, "tail")]
  {
    var n := if |ps| < 2 then |ps| else 2;
    var es := seq(n, i requires 0 <= i < n => (ps[i].0, Roles[i]));
    if n == 2 {
      var a := Put([], ps[0].0, "head");
      assert a == [(ps[0].0, "head")];
      assert es[0] == (ps[0].0, "head") && es[1..] == [(ps[1].0, "tail")];
      assert AutoOrient(ps) == Union(a, es[1..]);
      assert Union(a, es[1..]) == Put(a, ps[1].0, "tail") by {
        assert es[1..][1..] == [];
      }
      if ps[0].0 != ps[1].0 {
        assert Put(a, ps[1].0, "tail") == [a[0]] + Put([], ps[1].0, "tail");
      }
    } else if n == 1 {
      assert es[0] == (ps[0].0, "head") && es[1..] == [];
      assert AutoOrient(ps) == Union(Put([], ps[0].0, "head"), []);
    }
  }

  /** The first inferred request draws the first terminal fragment of the group, and the
      second request the second one, even from the same residue. */
  lemma {:induction false} FirstTwoTerminals(g: MonomerGroup)
    requires DistinctKeys(g.monomers)
    ensures var ps := IterRdmols(g, Some(true));
      |ps| >= 1 ==> |Terminals(g, ps[0].0)| > 0 && Terminals(g, ps[0].0)[0] == ps[0].1
    ensures var ps := IterRdmols(g, Some(true));
      |ps| >= 2 ==> && Prior([(ps[0].0, "head"), (ps[1].0, "tail")], 1) < |Terminals(g, ps[1].0)|
                    && Terminals(g, ps[1].0)[Prior([(ps[0].0, "head"), (ps[1].0, "tail")], 1)] == ps[1].1
  {
    var ps := IterRdmols(g, Some(true));
    if |ps| >= 1 {
      IterNth(g.monomers, Some(true), 0);
      assert ps[..0] == [];
    }
    if |ps| >= 2 {
      IterNth(g.monomers, Some(true), 1);
      var req := [(ps[0].0, "head"), (ps[1].0, "tail")];
      assert req[..1] == [(ps[0].0, "head")] && ps[..1] == [ps[0]];
      assert req[..1][1..] == [] && ps[..1][1..] == [];
      assert CountKey(req[..1], ps[1].0) == CountKey(ps[..1], ps[1].0);
    }
  }

  /** The corrected builder without a declared orientation uses the same head and tail
      as the end-group selection: the first two terminal pairs in iteration order. */
  lemma {:induction false} FixedAutoEnds(g: MonomerGroup, dop: int, sequence: string, addHs: bool, minimize: bool)
    requires DistinctKeys(g.monomers) && IsLinear(g)
    requires |IterRdmols(g, Some(true))| >= 2
    ensures var ps := IterRdmols(g, Some(true));
      var r := BuildLinearPolymerFixed(g, dop, sequence, addHs, minimize, false);
      && r.Success?
      && IsTerminal(ps[0].1) && IsTerminal(ps[1].1)
      && r.value.ends == [EndUnit(ps[0].0, ps[0].1, OnlyPort(ps[0].1), "head"),
                          EndUnit(ps[1].0, ps[1].1, OnlyPort(ps[1].1), "tail")]
    ensures !OrientDeclared(g) ==> var ps := IterRdmols(g, Some(true));
      LinearEndGroups(g) == Success([("head", EndGroup(ps[0].0, ps[0].1)), ("tail", EndGroup(ps[1].0, ps[1].1))])
  {
    var ps := IterRdmols(g, Some(true));
    var req := [(ps[0].0, "head"), (ps[1].0, "tail")];
    FirstTwoTerminals(g);
    assert Prior(req, 0) == 0;
    AssembleSucceeds(g, req, dop, sequence, addHs, minimize);
    var ends := BuildLinearPolymerFixed(g, dop, sequence, addHs, minimize, false).value.ends;
    assert ends == [ends[0], ends[1]];
    if !OrientDeclared(g) {
      AutoEndGroups(g);
      var e := LinearEndGroups(g).value;
      assert e == [e[0], e[1]];
    }
  }

  /** When the first two terminal pairs lie on different residues, the as-written and
      corrected builders produce the same plan. */
  lemma {:induction false} AutoDistinctResidues(g: MonomerGroup, dop: int, sequence: string, addHs: bool, minimize: bool)
    requires var ps := IterRdmols(g, Some(true)); |ps| >= 2 && ps[0].0 != ps[1].0
    ensures BuildLinearPolymer(g, dop, sequence, addHs, minimize, false)
         == BuildLinearPolymerFixed(g, dop, sequence, addHs, minimize, false)
  {
    AutoOrientShape(IterRdmols(g, Some(true)));
  }

  // ---------------------------------------------------------------------------
  // Discrepancies between the source as written and its evident intent

  /** As written, a declared orientation is iterated as (residue name, role) although it
      maps roles to residue names, so the first role name is looked up as a residue: unless
      a residue with that name has a terminal fragment, the build fails with `KeyError`
      naming the role. */
  lemma {:induction false} DeclaredOrientMisread(g: MonomerGroup, dop: int, sequence: string, addHs: bool, minimize: bool)
    requires IsLinear(g) && DistinctKeys(g.monomers)
    requires |g.termOrient| > 0 && Terminals(g, g.termOrient[0].0) == []
    ensures BuildLinearPolymer(g, dop, sequence, addHs, minimize, true) == Failure(KeyError(g.termOrient[0].0))
  {
    var t := g.termOrient;
    AssembleSucceeds(g, t, dop, sequence, addHs, minimize);
    AssembleFails(g, t, dop, sequence, addHs, minimize);
    assert Prior(t, 0) == 0;
    var r := Assemble(g, t, dop, sequence, addHs, minimize);
    var i :| 0 <= i < |t| && Prior(t, i) >= |Terminals(g, t[i].0)|
      && (forall j :: 0 <= j < i ==> Prior(t, j) < |Terminals(g, t[j].0)|)
      && r.error == if Terminals(g, t[i].0) == [] then KeyError(t[i].0) else StopIteration;
    assert i == 0;
  }

  /** The corrected builder honours a declared orientation: it succeeds exactly when each
      declared residue has an unused terminal fragment for each role naming it, and then
      registers one end group per declared role, in declaration order, from the declared
      residue. */
  lemma {:induction false} FixedDeclaredEnds(g: MonomerGroup, dop: int, sequence: string, addHs: bool, minimize: bool)
    requires IsLinear(g) && DistinctKeys(g.monomers)
    ensures var t := g.termOrient; var r := BuildLinearPolymerFixed(g, dop, sequence, addHs, minimize, true);
      r.Success? <==> EnoughTerminals(g, Swap(t))
    ensures var t := g.termOrient; var r := BuildLinearPolymerFixed(g, dop, sequence, addHs, minimize, true);
      r.Success? ==> |r.value.ends| == |t| && forall i :: 0 <= i < |t| ==>
        && r.value.ends[i].role == t[i].0 && r.value.ends[i].resname == t[i].1
        && IsTerminal(r.value.ends[i].frag) && r.value.ends[i].frag in Terminals(g, t[i].1)
  {
    var t := g.termOrient;
    AssembleSucceeds(g, Swap(t), dop, sequence, addHs, minimize);
  }

  /** Whenever the corrected builder registers a declared orientation, its end groups are
      the ones `linear_end_groups` selects for that orientation, role by role. The
      builder's iterators do not wrap, so the converse fails when one residue must serve
      more roles than it has terminal fragments. */
  lemma {:induction false} FixedDeclaredAgrees(g: MonomerGroup, dop: int, sequence: string, addHs: bool, minimize: bool)
    requires IsLinear(g) && DistinctKeys(g.monomers) && OrientDeclared(g)
    ensures var r := BuildLinearPolymerFixed(g, dop, sequence, addHs, minimize, true);
      var e := LinearEndGroups(g);
      r.Success? ==> && e.Success? && |e.value| == |r.value.ends|
                     && forall i :: 0 <= i < |r.value.ends| ==>
                          e.value[i] == (r.value.ends[i].role, EndGroup(r.value.ends[i].resname, r.value.ends[i].frag))
  {
    FixedDeclaredPicks(g, dop, sequence, addHs, minimize);
    DeclaredEnds(g);
  }

  /** Each end group the corrected builder registers for a declared orientation carries
      the fragment `linear_end_groups` would pick for that role. */
  lemma {:induction false} FixedDeclaredPicks(g: MonomerGroup, dop: int, sequence: string, addHs: bool, minimize: bool)
    requires IsLinear(g) && DistinctKeys(g.monomers)
    ensures var t := g.termOrient; var r := BuildLinearPolymerFixed(g, dop, sequence, addHs, minimize, true);
      r.Success? ==> |r.value.ends| == |t| && forall i :: 0 <= i < |t| ==>
        && Terminals(g, t[i].1) != []
        && r.value.ends[i].role == t[i].0 && r.value.ends[i].resname == t[i].1
        && r.value.ends[i].frag == DeclaredPick(g, i)
  {
    var t := g.termOrient;
    var orient := Swap(t);
    var r := BuildLinearPolymerFixed(g, dop, sequence, addHs, minimize, true);
    assert r == Assemble(g, orient, dop, sequence, addHs, minimize);
    if r.Success? {
      var ends := r.value.ends;
      assert |ends| == |t| && forall i :: 0 <= i < |t| ==>
          && Prior(orient, i) < |Terminals(g, t[i].1)|
          && ends[i] == EndUnit(t[i].1, EndPick(g, orient, i), OnlyPort(EndPick(g, orient, i)), t[i].0) by {
        AssembleSucceeds(g, orient, dop, sequence, addHs, minimize);
      }
      forall i | 0 <= i < |t|
        ensures Terminals(g, t[i].1) != [] && DeclaredPick(g, i) == EndPick(g, orient, i)
      {
        PickAgrees(g, i);
      }
    }
  }

  /** A declared role whose residue still has an unused terminal fragment picks the same
      fragment with or without wrap-around. */
  lemma {:induction false} PickAgrees(g: MonomerGroup, i: nat)
    requires i < |g.termOrient| && Prior(Swap(g.termOrient), i) < |Terminals(g, g.termOrient[i].1)|
    ensures Terminals(g, g.termOrient[i].1) != []
    ensures DeclaredPick(g, i) == EndPick(g, Swap(g.termOrient), i)
  {
    var orient := Swap(g.termOrient);
    var xs := Terminals(g, g.termOrient[i].1);
    assert orient[i].0 == g.termOrient[i].1;
    assert Prior(orient, i) % |xs| == Prior(orient, i);
  }

  /** As written, two inferred terminal pairs on the same residue collapse into one
      residue-keyed entry: the plan has a single end group, labelled tail, carrying the
      fragment meant for the head. */
  lemma {:induction false} AutoOrientCollapse(g: MonomerGroup, dop: int, sequence: string, addHs: bool, minimize: bool)
    requires IsLinear(g) && DistinctKeys(g.monomers)
    requires var ps := IterRdmols(g, Some(true)); |ps| >= 2 && ps[0].0 == ps[1].0
    ensures var ps := IterRdmols(g, Some(true));
      var r := BuildLinearPolymer(g, dop, sequence, addHs, minimize, false);
      && r.Success? && IsTerminal(ps[0].1)
      && r.value.ends == [EndUnit(ps[0].0, ps[0].1, OnlyPort(ps[0].1), "tail")]
  {
    var ps := IterRdmols(g, Some(true));
    var orient := [(ps[0].0, "tail")];
    AutoOrientShape(ps);
    FirstTwoTerminals(g);
    assert Prior(orient, 0) == 0;
    AssembleSucceeds(g, orient, dop, sequence, addHs, minimize);
    var ends := BuildLinearPolymer(g, dop, sequence, addHs, minimize, false).value.ends;
    assert ends == [ends[0]];
  }

  /** As written, fewer than two terminal fragments give a plan with fewer than two end
      groups and no error, although the inference is documented to stop. */
  lemma {:induction false} TooFewTerminals(g: MonomerGroup, dop: int, sequence: string, addHs: bool, minimize: bool)
    requires IsLinear(g) && DistinctKeys(g.monomers)
    requires |IterRdmols(g, Some(true))| < 2
    ensures var r := BuildLinearPolymer(g, dop, sequence, addHs, minimize, false);
      r.Success? && |r.value.ends| == |IterRdmols(g, Some(true))|
  {
    var ps := IterRdmols(g, Some(true));
    AutoOrientShape(ps);
    var orient := AutoOrient(ps);
    if |ps| == 1 {
      FirstTwoTerminals(g);
      assert Prior(orient, 0) == 0;
    }
    AssembleSucceeds(g, orient, dop, sequence, addHs, minimize);
  }

  /** The corrected builder without a declared orientation stops with `StopIteration`
      exactly when the group has fewer than two terminal fragments. */
  lemma {:induction false} FixedTooFewTerminals(g: MonomerGroup, dop: int, sequence: string, addHs: bool, minimize: bool)
    requires IsLinear(g) && DistinctKeys(g.monomers)
    ensures BuildLinearPolymerFixed(g, dop, sequence, addHs, minimize, false) == Failure(StopIteration)
            <==> |IterRdmols(g, Some(true))| < 2
  {
    var ps := IterRdmols(g, Some(true));
    if |ps| >= 2 {
      FixedAutoEnds(g, dop, sequence, addHs, minimize);
    }
  }

  /** A middle fragment with two ports and two end fragments with one port each. */
  const MidA := Smarts("[*]CC[*]", true, [0, 3])
  const EndB := Smarts("[*]C", true, [0])
  const EndC := Smarts("[*]O", true, [0])

  /** Residues A (middle), B and C (ends), with head on B and tail on C declared. */
  const ExampleGroup := MonomerGroup([("A", [MidA]), ("B", [EndB]), ("C", [EndC])],
                                     [("head", "B"), ("tail", "C")])

  lemma {:induction false} ExampleLookups()
    ensures var m := ExampleGroup.monomers;
      && DistinctKeys(m) && IsLinear(ExampleGroup)
      && Lookup(m, "head") == None && Lookup(m, "B") == Some([EndB]) && Lookup(m, "C") == Some([EndC])
  {
    var m := ExampleGroup.monomers;
    assert m[1..] == [("B", [EndB]), ("C", [EndC])];
    assert m[1..][1..] == [("C", [EndC])] && m[1..][1..][1..] == [];
    assert Lookup(m[1..][1..], "head") == None;
    assert Lookup(m[1..][1..], "C") == Some([EndC]);
    assert IsLinear(ExampleGroup);
  }

  lemma {:induction false} ExampleMiddles()
    ensures IterRdmols(ExampleGroup, Some(false)) == [("A", MidA)]
  {
    var m := ExampleGroup.monomers;
    assert m[1..] == [("B", [EndB]), ("C", [EndC])];
    assert m[1..][1..] == [("C", [EndC])] && m[1..][1..][1..] == [];
    assert [MidA][1..] == [] && [EndB][1..] == [] && [EndC][1..] == [];
    assert IterResidue("A", [MidA], Some(false)) == [("A", MidA)];
    assert IterResidue("C", [EndC], Some(false)) == [];
    assert IterEntries(m[1..][1..], Some(false)) == [];
    assert IterResidue("B", [EndB], Some(false)) == [];
    assert IterEntries(m[1..], Some(false)) == [];
  }

  lemma {:induction false} ExampleRequests()
    ensures Swap(ExampleGroup.termOrient) == [("B", "head"), ("C", "tail")]
    ensures Prior([("B", "head"), ("C", "tail")], 0) == 0
    ensures Prior([("B", "head"), ("C", "tail")], 1) == 0
  {
  }

  lemma {:induction false} ExampleConstruct()
    ensures Construct([("A", Bare(MidA)), ("B", Many([EndB])), ("C", Bare(EndC))], ExampleGroup.termOrient)
         == Success(ExampleGroup)
  {
    var raw := [("A", Bare(MidA)), ("B", Many([EndB])), ("C", Bare(EndC))];
    assert DistinctKeys(raw);
    assert forall i :: 0 <= i < |raw| ==> EntryCheck(raw[i].0, raw[i].1).None?;
    var m := Construct(raw, ExampleGroup.termOrient).value.monomers;
    assert Keys(m) == Keys(raw);
    assert m[0] == ("A", [MidA]) && m[1] == ("B", [EndB]) && m[2] == ("C", [EndC]);
    assert m == ExampleGroup.monomers;
  }

  /** For the example group with five units and sequence "A": as written the build fails
      with `KeyError("head")`; corrected, it registers A once as the middle unit, B as
      head and C as tail, and asks for three replications. */
  lemma {:induction false} ExampleChain()
    ensures Construct([("A", Bare(MidA)), ("B", Many([EndB])), ("C", Bare(EndC))], ExampleGroup.termOrient)
         == Success(ExampleGroup)
    ensures BuildLinearPolymer(ExampleGroup, 5, "A", false, false, true) == Failure(KeyError("head"))
    ensures BuildLinearPolymerFixed(ExampleGroup, 5, "A", false, false, true)
         == Success(Plan([MiddleUnit("A", MidA, 'A', [0, 3])],
                         [EndUnit("B", EndB, 0, "head"), EndUnit("C", EndC, 0, "tail")],
                         3, "A", false, false))
  {
    var g := ExampleGroup;
    ExampleConstruct();
    ExampleLookups();
    DeclaredOrientMisread(g, 5, "A", false, false);
    ExampleFixedPlan();
  }

  lemma {:induction false} ExampleEnds()
    ensures var orient := Swap(ExampleGroup.termOrient);
      && |orient| == 2 && orient[0].1 == "head" && orient[1].1 == "tail"
      && EnoughTerminals(ExampleGroup, orient)
      && EndPick(ExampleGroup, orient, 0) == EndB && EndPick(ExampleGroup, orient, 1) == EndC
  {
    var g := ExampleGroup;
    ExampleLookups();
    ExampleRequests();
    var orient := Swap(g.termOrient);
    assert Terminals(g, "B") == [EndB] && Terminals(g, "C") == [EndC];
    assert Prior(orient, 0) == 0;
    assert Prior(orient, 1) == 0 by {
      assert orient[..1] == [("B", "head")];
    }
  }

  lemma {:induction false} ExampleFixedPlan()
    ensures BuildLinearPolymerFixed(ExampleGroup, 5, "A", false, false, true)
         == Success(Plan([MiddleUnit("A", MidA, 'A', [0, 3])],
                         [EndUnit("B", EndB, 0, "head"), EndUnit("C", EndC, 0, "tail")],
                         3, "A", false, false))
  {
    var g := ExampleGroup;
    ExampleLookups();
    ExampleMiddles();
    ExampleEnds();
    var orient := Swap(g.termOrient);
    AssembleSucceeds(g, orient, 5, "A", false, false);
    assert BuildLinearPolymerFixed(g, 5, "A", false, false, true) == Assemble(g, orient, 5, "A", false, false);
    var r := Assemble(g, orient, 5, "A", false, false).value;
    assert r.middles == [MiddleUnit("A", MidA, 'A', [0, 3])] by {
      assert r.middles == Middles([("A", MidA)], "A");
      assert "A"[0] == 'A';
    }
    assert r.ends == [r.ends[0], r.ends[1]];
    assert r.replications == 3;
  }

  // ---------------------------------------------------------------------------
  // Charge reset

  /** A particle of the built chain, reduced to what the charge reset touches. */
  datatype Particle = Particle(name: string, charge: real)

  /** Every particle made uncharged; nothing else about the particles changes. */
  method ResetCharges(particles: seq<Particle>) returns (out: seq<Particle>)
    ensures |out| == |particles|
    ensures forall i :: 0 <= i < |out| ==> out[i].charge == 0.0 && out[i].name == particles[i].name
  {
    out := [];
    for i := 0 to |particles|
      invariant |out| == i
      invariant forall j :: 0 <= j < i ==> out[j].charge == 0.0 && out[j].name == particles[j].name
    {
      out := out + [particles[i].(charge := 0.0)];
    }
  }
}
