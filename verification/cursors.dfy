/** Drawing end-group fragments from per-residue fragment lists. Each residue name has
    its own cursor (how many fragments were drawn from it so far); a draw takes the
    fragment under the cursor and advances it. A cyclic draw wraps around the list
    (index modulo its length); a non-cyclic one is exhausted at the end of the list. */
module Cursors {
  import opened Errors
  import opened OrderedMaps
  import opened Monomers

  /** One draw: the role, the residue name and the fragment drawn. */
  datatype Draw = Draw(role: string, resname: string, frag: Smarts)

  /** The number of fragments already drawn from a residue. */
  function Cursor(cursors: map<string, nat>, resname: string): nat {
    if resname in cursors then cursors[resname] else 0
  }

  /** How many requests before request `i` name the same residue. */
  function Prior(requests: seq<(string, string)>, i: nat): nat
    requires i < |requests|
  {
    CountKey(requests[..i], requests[i].0)
  }

  /** A draw from `resname` with cursor `c` succeeds. */
  predicate Ready(pools: OMap<string, seq<Smarts>>, resname: string, c: nat, cyclic: bool) {
    match Lookup(pools, resname)
    case None => false
    case Some(pool) => |pool| > 0 && (cyclic || c < |pool|)
  }

  /** The fragment a successful draw with cursor `c` yields. */
  function Pick(pools: OMap<string, seq<Smarts>>, resname: string, c: nat, cyclic: bool): Smarts
    requires Ready(pools, resname, c, cyclic)
  {
    var pool := Lookup(pools, resname).value;
    pool[if cyclic then c % |pool| else c]
  }

  /** The exception a failing draw raises: an unknown residue, or an exhausted list. */
  function Refusal(pools: OMap<string, seq<Smarts>>, resname: string): Error {
    if Lookup(pools, resname).None? then KeyError(resname) else StopIteration
  }

  /** Serve the requests `(resname, label)` in order, advancing each residue's cursor. */
  function DrawFrom(pools: OMap<string, seq<Smarts>>, requests: seq<(string, string)>,
                    cyclic: bool, cursors: map<string, nat>): (r: Result<seq<Draw>>)
    ensures r.Failure? ==> r.error.KeyError? || r.error == StopIteration
    decreases |requests|
  {
    if requests == [] then Success([])
    else
      var resname := requests[0].0;
      var c := Cursor(cursors, resname);
      if !Ready(pools, resname, c, cyclic) then Failure(Refusal(pools, resname))
      else
        var rest :- DrawFrom(pools, requests[1..], cyclic, cursors[resname := c + 1]);
        Success([Draw(requests[0].1, resname, Pick(pools, resname, c, cyclic))] + rest)
  }

  /** Request `i` finds its residue ready, counting the draws before it. */
  predicate ReadyAt(pools: OMap<string, seq<Smarts>>, requests: seq<(string, string)>,
                    cyclic: bool, cursors: map<string, nat>, i: nat)
    requires i < |requests|
  {
    Ready(pools, requests[i].0, Cursor(cursors, requests[i].0) + Prior(requests, i), cyclic)
  }

  /** The draw request `i` receives when it is ready. */
  function DrawAt(pools: OMap<string, seq<Smarts>>, requests: seq<(string, string)>,
                  cyclic: bool, cursors: map<string, nat>, i: nat): Draw
    requires i < |requests| && ReadyAt(pools, requests, cyclic, cursors, i)
  {
    var resname := requests[i].0;
    Draw(requests[i].1, resname, Pick(pools, resname, Cursor(cursors, resname) + Prior(requests, i), cyclic))
  }

  /** Request `i` is the first one that cannot be served. */
  predicate FirstUnready(pools: OMap<string, seq<Smarts>>, requests: seq<(string, string)>,
                         cyclic: bool, cursors: map<string, nat>, i: nat)
    requires i < |requests|
  {
    && !ReadyAt(pools, requests, cyclic, cursors, i)
    && forall j :: 0 <= j < i ==> ReadyAt(pools, requests, cyclic, cursors, j)
  }

  /** Dropping the first request and advancing its residue's cursor leaves every later
      request with the same cursor position. */
  lemma {:induction false} PriorShift(requests: seq<(string, string)>, cursors: map<string, nat>, i: nat)
    requires 0 < i < |requests|
    ensures var r := requests[0].0;
      Cursor(cursors[r := Cursor(cursors, r) + 1], requests[i].0) + Prior(requests[1..], i - 1)
      == Cursor(cursors, requests[i].0) + Prior(requests, i)
  {
    assert requests[..i][0] == requests[0];
    assert requests[..i][1..] == requests[1..][..i - 1];
  }

  /** Dropping the first request shifts every later request's readiness and draw by one. */
  lemma {:induction false} ShiftAt(pools: OMap<string, seq<Smarts>>, requests: seq<(string, string)>,
                cyclic: bool, cursors: map<string, nat>, i: nat)
    requires 0 < i < |requests|
    ensures var cursors' := cursors[requests[0].0 := Cursor(cursors, requests[0].0) + 1];
      && ReadyAt(pools, requests, cyclic, cursors, i) == ReadyAt(pools, requests[1..], cyclic, cursors', i - 1)
      && (ReadyAt(pools, requests, cyclic, cursors, i) ==>
            DrawAt(pools, requests, cyclic, cursors, i) == DrawAt(pools, requests[1..], cyclic, cursors', i - 1))
  {
    PriorShift(requests, cursors, i);
  }

  /** The draws succeed exactly when every request is ready in turn; then request `i`
      receives the fragment under its residue's cursor advanced by the earlier requests
      for that residue. */
  lemma {:induction false} DrawFromSucceeds(pools: OMap<string, seq<Smarts>>, requests: seq<(string, string)>,
                                            cyclic: bool, cursors: map<string, nat>)
    ensures var r := DrawFrom(pools, requests, cyclic, cursors);
      r.Success? <==> forall i :: 0 <= i < |requests| ==> ReadyAt(pools, requests, cyclic, cursors, i)
    ensures var r := DrawFrom(pools, requests, cyclic, cursors);
      r.Success? ==> |r.value| == |requests| && forall i :: 0 <= i < |requests| ==>
        ReadyAt(pools, requests, cyclic, cursors, i) && r.value[i] == DrawAt(pools, requests, cyclic, cursors, i)
    decreases |requests|
  {
    if requests != [] {
      var resname := requests[0].0;
      var c := Cursor(cursors, resname);
      assert Prior(requests, 0) == 0;
      if Ready(pools, resname, c, cyclic) {
        DrawFromSucceeds(pools, requests[1..], cyclic, cursors[resname := c + 1]);
        ServedStep(pools, requests, cyclic, cursors);
      } else {
        assert !ReadyAt(pools, requests, cyclic, cursors, 0);
      }
    }
  }

  /** The inductive step of `DrawFromSucceeds`: the first request is served, and the rest
      behave as the induction hypothesis says. */
  lemma {:induction false} ServedStep(pools: OMap<string, seq<Smarts>>, requests: seq<(string, string)>,
                                      cyclic: bool, cursors: map<string, nat>)
    requires requests != [] && Ready(pools, requests[0].0, Cursor(cursors, requests[0].0), cyclic)
    requires var cursors' := cursors[requests[0].0 := Cursor(cursors, requests[0].0) + 1];
      var rest := requests[1..];
      var r := DrawFrom(pools, rest, cyclic, cursors');
      && (r.Success? <==> forall i :: 0 <= i < |rest| ==> ReadyAt(pools, rest, cyclic, cursors', i))
      && (r.Success? ==> |r.value| == |rest| && forall i :: 0 <= i < |rest| ==>
            ReadyAt(pools, rest, cyclic, cursors', i) && r.value[i] == DrawAt(pools, rest, cyclic, cursors', i))
    ensures var r := DrawFrom(pools, requests, cyclic, cursors);
      r.Success? <==> forall i :: 0 <= i < |requests| ==> ReadyAt(pools, requests, cyclic, cursors, i)
    ensures var r := DrawFrom(pools, requests, cyclic, cursors);
      r.Success? ==> |r.value| == |requests| && forall i :: 0 <= i < |requests| ==>
        ReadyAt(pools, requests, cyclic, cursors, i) && r.value[i] == DrawAt(pools, requests, cyclic, cursors, i)
  {
    var resname := requests[0].0;
    var c := Cursor(cursors, resname);
    var cursors' := cursors[resname := c + 1];
    assert Prior(requests, 0) == 0;
    assert ReadyAt(pools, requests, cyclic, cursors, 0);
    forall i | 0 < i < |requests| {
      ShiftAt(pools, requests, cyclic, cursors, i);
    }
    var rest := DrawFrom(pools, requests[1..], cyclic, cursors');
    if rest.Success? {
      assert DrawFrom(pools, requests, cyclic, cursors).value
          == [DrawAt(pools, requests, cyclic, cursors, 0)] + rest.value;
    } else {
      var j :| 0 <= j < |requests[1..]| && !ReadyAt(pools, requests[1..], cyclic, cursors', j);
      assert !ReadyAt(pools, requests, cyclic, cursors, j + 1);
    }
  }

  /** When the first request is served, the first unready request of the rest is the
      first unready request of all. */
  lemma {:induction false} FirstUnreadyShift(pools: OMap<string, seq<Smarts>>, requests: seq<(string, string)>,
                          cyclic: bool, cursors: map<string, nat>, i: nat)
    requires i + 1 < |requests|
    requires Ready(pools, requests[0].0, Cursor(cursors, requests[0].0), cyclic)
    requires FirstUnready(pools, requests[1..], cyclic,
                          cursors[requests[0].0 := Cursor(cursors, requests[0].0) + 1], i)
    ensures FirstUnready(pools, requests, cyclic, cursors, i + 1)
  {
    assert Prior(requests, 0) == 0;
    assert ReadyAt(pools, requests, cyclic, cursors, 0);
    forall j | 0 < j <= i + 1 {
      ShiftAt(pools, requests, cyclic, cursors, j);
    }
  }

  /** A failed draw raises the exception of the first request that cannot be served. */
  lemma {:induction false} DrawFromFails(pools: OMap<string, seq<Smarts>>, requests: seq<(string, string)>,
                                         cyclic: bool, cursors: map<string, nat>)
    ensures var r := DrawFrom(pools, requests, cyclic, cursors);
      r.Failure? ==> (exists i :: 0 <= i < |requests| && FirstUnready(pools, requests, cyclic, cursors, i)
                                 && r.error == Refusal(pools, requests[i].0))
    decreases |requests|
  {
    if requests != [] {
      var resname := requests[0].0;
      var c := Cursor(cursors, resname);
      var cursors' := cursors[resname := c + 1];
      assert Prior(requests, 0) == 0;
      if Ready(pools, resname, c, cyclic) {
        var rest := DrawFrom(pools, requests[1..], cyclic, cursors');
        if rest.Failure? {
          DrawFromFails(pools, requests[1..], cyclic, cursors');
          var i :| 0 <= i < |requests[1..]| && FirstUnready(pools, requests[1..], cyclic, cursors', i)
            && rest.error == Refusal(pools, requests[1..][i].0);
          FirstUnreadyShift(pools, requests, cyclic, cursors, i);
        }
      } else {
        assert FirstUnready(pools, requests, cyclic, cursors, 0);
      }
    }
  }
}
