/** The monomer group: residue names mapped to lists of fragment patterns, plus an
    optional head/tail orientation. This module covers the data model, construction
    (normalisation and validation) and merging of groups. */
module Monomers {
  import opened Errors
  import opened OrderedMaps

  /** A fragment pattern together with what the external pattern library reports about
      it: whether it parses, and the atom indices of its open ports ("linkers"). The
      library itself is not modelled, so both are arbitrary per pattern. */
  datatype Smarts = Smarts(text: string, valid: bool, linkers: seq<nat>)

  /** The number of open attachment points of a fragment. */
  function NumPorts(s: Smarts): nat {
    |s.linkers|
  }

  /** A fragment with exactly one port ends a chain. */
  predicate IsTerminal(s: Smarts) {
    NumPorts(s) == 1
  }

  /** A value of the declarative fragment map before construction: a bare pattern, a
      list of patterns, or a value of some other type (named by its type). */
  datatype Declared = Bare(pattern: Smarts) | Many(patterns: seq<Smarts>) | Other(typeName: string)

  /** `termOrient` maps "head"/"tail" to residue names; it is kept as given. */
  datatype MonomerGroup = MonomerGroup(monomers: OMap<string, seq<Smarts>>, termOrient: OMap<string, string>)

  /** The operand of a merge: a monomer group or an object of another type. */
  datatype Operand = Group(group: MonomerGroup) | NotAGroup(typeName: string)

  /** A fragment list a constructed group can hold: non-empty and every pattern valid. */
  predicate Usable(xs: seq<Smarts>) {
    |xs| > 0 && forall j :: 0 <= j < |xs| ==> xs[j].valid
  }

  /** What construction guarantees: distinct residue names, each with a usable list. */
  predicate WellFormed(g: MonomerGroup) {
    && DistinctKeys(g.monomers)
    && forall i :: 0 <= i < |g.monomers| ==> Usable(g.monomers[i].1)
  }

  /** The index of the first invalid pattern, as the validation loop finds it. */
  function FirstInvalid(xs: seq<Smarts>): (r: Option<nat>)
    ensures r.None? <==> forall j :: 0 <= j < |xs| ==> xs[j].valid
    ensures r.Some? ==> r.value < |xs| && !xs[r.value].valid
    ensures r.Some? ==> forall j :: 0 <= j < r.value ==> xs[j].valid
  {
    if xs == [] then None
    else if !xs[0].valid then Some(0)
    else match FirstInvalid(xs[1..])
      case None => None
      case Some(j) => Some(j + 1)
  }

  /** The exception construction raises for one residue entry, if any: an empty list,
      a value of the wrong type, or the first invalid pattern of the (wrapped) list. */
  function EntryCheck(resname: string, d: Declared): (r: Option<Error>)
    ensures r.None? <==> (d.Bare? && d.pattern.valid) || (d.Many? && Usable(d.patterns))
    ensures r == Some(IndexError(resname)) <==> d == Many([])
    ensures d.Other? ==> r == Some(TypeError(d.typeName))
    ensures r.Some? && r.value.TypeError? ==> d.Other?
    ensures d.Bare? && !d.pattern.valid ==> r == Some(ValueError(resname, 0, d.pattern.text))
    ensures d.Many? && d.patterns != [] && !Usable(d.patterns) ==> r.Some? && r.value.ValueError?
    ensures d.Many? && r.Some? && r.value.ValueError? ==>
      && r.value.resname == resname
      && r.value.index < |d.patterns|
      && !d.patterns[r.value.index].valid
      && r.value.pattern == d.patterns[r.value.index].text
      && forall j :: 0 <= j < r.value.index ==> d.patterns[j].valid
  {
    match d
    case Many(xs) =>
      if xs == [] then Some(IndexError(resname))
      else (match FirstInvalid(xs)
            case None => None
            case Some(i) => Some(ValueError(resname, i, xs[i].text)))
    case Bare(s) =>
      if s.valid then None else Some(ValueError(resname, 0, s.text))
    case Other(t) => Some(TypeError(t))
  }

  /** The list a declared value is stored as: a bare pattern is wrapped in a list. */
  function AsList(d: Declared): seq<Smarts>
    requires !d.Other?
  {
    match d
    case Bare(s) => [s]
    case Many(xs) => xs
  }

  /** The validation loop of construction, residue by residue in insertion order,
      producing the normalised map or the first residue's exception. */
  function NormalizeEntries(raw: OMap<string, Declared>): (r: Result<OMap<string, seq<Smarts>>>)
    ensures r.Success? <==> forall i :: 0 <= i < |raw| ==> EntryCheck(raw[i].0, raw[i].1).None?
    ensures r.Success? ==> |r.value| == |raw|
    ensures r.Success? ==> forall i :: 0 <= i < |raw| ==>
      && r.value[i].0 == raw[i].0
      && !raw[i].1.Other?
      && r.value[i].1 == AsList(raw[i].1)
    ensures r.Failure? ==> (exists i :: 0 <= i < |raw| && RejectedAt(raw, i, r.error))
  {
    if raw == [] then Success([])
    else match EntryCheck(raw[0].0, raw[0].1)
      case Some(e) =>
        assert RejectedAt(raw, 0, e);
        Failure(e)
      case None =>
        match NormalizeEntries(raw[1..])
        case Failure(e) =>
          FirstFailureShift(raw, e);
          Failure(e)
        case Success(rest) =>
          Success([(raw[0].0, AsList(raw[0].1))] + rest)
  }

  /** Entry `i` is the first entry construction rejects. */
  predicate FirstFailure(raw: OMap<string, Declared>, i: nat)
    requires i < |raw|
  {
    && EntryCheck(raw[i].0, raw[i].1).Some?
    && forall j :: 0 <= j < i ==> EntryCheck(raw[j].0, raw[j].1).None?
  }

  /** Construction stops at entry `i` with exception `e`. */
  predicate RejectedAt(raw: OMap<string, Declared>, i: nat, e: Error)
    requires i < |raw|
  {
    FirstFailure(raw, i) && EntryCheck(raw[i].0, raw[i].1) == Some(e)
  }

  lemma {:induction false} FirstFailureShift(raw: OMap<string, Declared>, e: Error)
    requires raw != [] && EntryCheck(raw[0].0, raw[0].1).None?
    requires exists i :: 0 <= i < |raw[1..]| && RejectedAt(raw[1..], i, e)
    ensures exists i :: 0 <= i < |raw| && RejectedAt(raw, i, e)
  {
    var i :| 0 <= i < |raw[1..]| && RejectedAt(raw[1..], i, e);
    assert RejectedAt(raw, i + 1, e);
  }

  /** Building a group from a declarative map: every residue keeps its position and maps
      to a non-empty list of valid patterns (a bare pattern `s` becoming `[s]`), the
      orientation is stored unchecked; otherwise the exception of the first offending
      residue in insertion order. */
  function Construct(raw: OMap<string, Declared>, termOrient: OMap<string, string>): (r: Result<MonomerGroup>)
    requires DistinctKeys(raw)
    ensures r.Success? <==> forall i :: 0 <= i < |raw| ==> EntryCheck(raw[i].0, raw[i].1).None?
    ensures r.Success? ==> WellFormed(r.value) && r.value.termOrient == termOrient
    ensures r.Success? ==> Keys(r.value.monomers) == Keys(raw)
    ensures r.Success? ==> forall i :: 0 <= i < |raw| ==>
      && (raw[i].1.Bare? ==> r.value.monomers[i].1 == [raw[i].1.pattern])
      && (raw[i].1.Many? ==> r.value.monomers[i].1 == raw[i].1.patterns)
    ensures r.Failure? ==> (exists i :: 0 <= i < |raw| && RejectedAt(raw, i, r.error))
  {
    match NormalizeEntries(raw)
    case Failure(e) => Failure(e)
    case Success(m) =>
      NormalizedWellFormed(raw, m, termOrient);
      Success(MonomerGroup(m, termOrient))
  }

  /** The normalised entries keep the residue names, so the keys stay distinct, and each
      accepted entry becomes a usable list. */
  lemma {:induction false} NormalizedWellFormed(raw: OMap<string, Declared>, m: OMap<string, seq<Smarts>>, termOrient: OMap<string, string>)
    requires DistinctKeys(raw) && NormalizeEntries(raw) == Success(m)
    ensures WellFormed(MonomerGroup(m, termOrient)) && Keys(m) == Keys(raw)
    ensures forall i :: 0 <= i < |raw| ==>
      && (raw[i].1.Bare? ==> m[i].1 == [raw[i].1.pattern])
      && (raw[i].1.Many? ==> m[i].1 == raw[i].1.patterns)
  {
    assert forall i :: 0 <= i < |m| ==> m[i].0 == raw[i].0;
    forall i | 0 <= i < |m|
      ensures Usable(m[i].1)
    {
      assert EntryCheck(raw[i].0, raw[i].1).None?;
    }
  }

  /** The dict of lists a merge hands to the constructor. */
  function AsDeclared(m: OMap<string, seq<Smarts>>): (raw: OMap<string, Declared>)
    ensures |raw| == |m| && Keys(raw) == Keys(m)
  {
    seq(|m|, i requires 0 <= i < |m| => (m[i].0, Many(m[i].1)))
  }

  /** `left + other`: a group of the residues of both, `other`'s list winning on a shared
      residue name, built without orientation; a non-group operand is refused. */
  function Merge(left: MonomerGroup, other: Operand): (r: Result<MonomerGroup>)
    requires DistinctKeys(left.monomers)
    requires other.Group? ==> DistinctKeys(other.group.monomers)
    ensures other.NotAGroup? ==> r == Failure(NotImplementedError)
    ensures r.Success? ==> r.value.termOrient == [] && WellFormed(r.value)
    ensures r.Success? ==> r.value.monomers == Union(left.monomers, other.group.monomers)
  {
    match other
    case NotAGroup(_) => Failure(NotImplementedError)
    case Group(right) =>
      UnionDistinct(left.monomers, right.monomers);
      var r := Construct(AsDeclared(Union(left.monomers, right.monomers)), []);
      if r.Success? then
        assert Keys(r.value.monomers) == Keys(Union(left.monomers, right.monomers));
        r
      else
        r
  }

  /** Merging two constructed groups never fails. */
  lemma {:induction false} MergeSucceeds(left: MonomerGroup, right: MonomerGroup)
    requires WellFormed(left) && WellFormed(right)
    ensures Merge(left, Group(right)).Success?
  {
    var u := Union(left.monomers, right.monomers);
    UnionEntries(left.monomers, right.monomers);
    forall i | 0 <= i < |u|
      ensures EntryCheck(AsDeclared(u)[i].0, AsDeclared(u)[i].1).None?
    {
      assert u[i] in u;
    }
  }

  /** The merged group lists the left residues in their order, then the residues only the
      right operand has, in its order; a residue's list comes from the right operand when
      it has that residue and from the left one otherwise. */
  lemma {:induction false} MergeContents(left: MonomerGroup, right: MonomerGroup, resname: string)
    requires WellFormed(left) && WellFormed(right)
    ensures Merge(left, Group(right)).Success?
    ensures var m := Merge(left, Group(right)).value.monomers;
      && Keys(m) == Keys(left.monomers) + Fresh(Keys(right.monomers), Keys(left.monomers))
      && Lookup(m, resname) == if resname in Keys(right.monomers)
                               then Lookup(right.monomers, resname)
                               else Lookup(left.monomers, resname)
  {
    MergeSucceeds(left, right);
    UnionKeys(left.monomers, right.monomers);
    UnionLookup(left.monomers, right.monomers, resname);
  }
}
