/**
 A batch of `AddTransition` calls applied in order to one node, compared with
 an independent "last write wins" description of the resulting map.
 */
module TransitionBatch {
  import opened Wrappers
  import opened DfaNode

  /** Applies `AddTransition` for each pair of `ts`, first to last. */
  function AddTransitions(n: Node, ts: seq<Edge>): (r: Node)
    ensures r.state == n.state
    decreases |ts|
  {
    if |ts| == 0 then n
    else AddTransitions(AddTransition(n, ts[0].0, ts[0].1), ts[1..])
  }

  /** Position `i` is the last pair of `ts` that mentions symbol `c`. */
  predicate IsLastWrite(ts: seq<Edge>, c: Char16, i: int)
  {
    && 0 <= i < |ts|
    && ts[i].0 == c
    && forall j :: i < j < |ts| ==> ts[j].0 != c
  }

  /** A symbol the batch never mentions keeps the destination it had before. */
  lemma {:induction false} AddTransitionsUntouched(n: Node, ts: seq<Edge>, c: Char16)
    requires forall i :: 0 <= i < |ts| ==> ts[i].0 != c
    ensures Dest(AddTransitions(n, ts), c) == Dest(n, c)
    decreases |ts|
  {
    if |ts| != 0 {
      var n' := AddTransition(n, ts[0].0, ts[0].1);
      assert Dest(n', c) == Dest(n, c);
      AddTransitionsUntouched(n', ts[1..], c);
    }
  }

  /** A symbol the batch mentions ends up with the destination of its last mention. */
  lemma {:induction false} AddTransitionsLastWins(n: Node, ts: seq<Edge>, c: Char16, i: int)
    requires IsLastWrite(ts, c, i)
    ensures Dest(AddTransitions(n, ts), c) == Some(ts[i].1)
    decreases |ts|
  {
    var n' := AddTransition(n, ts[0].0, ts[0].1);
    if i == 0 {
      assert forall j :: 0 <= j < |ts[1..]| ==> ts[1..][j].0 != c by {
        forall j | 0 <= j < |ts[1..]| ensures ts[1..][j].0 != c {
          assert ts[1..][j] == ts[j + 1];
        }
      }
      AddTransitionsUntouched(n', ts[1..], c);
    } else {
      assert IsLastWrite(ts[1..], c, i - 1) by {
        forall j | i - 1 < j < |ts[1..]| ensures ts[1..][j].0 != c {
          assert ts[1..][j] == ts[j + 1];
        }
      }
      AddTransitionsLastWins(n', ts[1..], c, i - 1);
    }
  }

  /** The map of each mentioned symbol to its last destination, built from the end of `ts`. */
  function LastWrites(ts: seq<Edge>): map<Char16, Int32>
    decreases |ts|
  {
    if |ts| == 0 then map[]
    else LastWrites(ts[..|ts| - 1])[ts[|ts| - 1].0 := ts[|ts| - 1].1]
  }

  /** `LastWrites` holds exactly the mentioned symbols, each with the destination of its last mention. */
  lemma {:induction false} LastWritesSpec(ts: seq<Edge>, c: Char16)
    ensures c in LastWrites(ts) <==> exists i :: 0 <= i < |ts| && ts[i].0 == c
    ensures c in LastWrites(ts) ==> exists i :: IsLastWrite(ts, c, i) && LastWrites(ts)[c] == ts[i].1
    decreases |ts|
  {
    if |ts| != 0 {
      var p := ts[..|ts| - 1];
      var k := |ts| - 1;
      if ts[k].0 == c {
        assert IsLastWrite(ts, c, k);
      } else {
        LastWritesSpec(p, c);
        assert forall i :: 0 <= i < |p| ==> p[i] == ts[i];
        if c in LastWrites(p) {
          var i :| IsLastWrite(p, c, i) && LastWrites(p)[c] == p[i].1;
          assert IsLastWrite(ts, c, i);
        }
      }
    }
  }

  /**
   A batch of insertions leaves the state alone and overrides the old map
   with the last destination of every symbol the batch mentions.
   */
  lemma {:induction false} AddTransitionsIsLastWrites(n: Node, ts: seq<Edge>)
    ensures AddTransitions(n, ts) == Node(n.state, n.transitions + LastWrites(ts))
  {
    var r := AddTransitions(n, ts);
    var m := n.transitions + LastWrites(ts);
    forall c
      ensures (c in r.transitions <==> c in m) && (c in m ==> r.transitions[c] == m[c])
    {
      LastWritesSpec(ts, c);
      if c in LastWrites(ts) {
        var i :| IsLastWrite(ts, c, i) && LastWrites(ts)[c] == ts[i].1;
        AddTransitionsLastWins(n, ts, c, i);
      } else {
        AddTransitionsUntouched(n, ts, c);
      }
    }
    assert r.transitions == m;
  }
}
