/**
Stop-token truncation and the special-token guards (examples/common/run_helpers.py,
examples/llama3_8b/benchmark.py, examples/qwen25_7b/benchmark.py).
*/
module StopTokens {
  import opened Prelude

  /** The ids before the first stop id. */
  function Truncated(ids: seq<int>, stop: set<int>): (r: seq<int>) {
    if ids == [] || ids[0] in stop then [] else [ids[0]] + Truncated(ids[1..], stop)
  }

  /** A prefix without stop ids that is everything, or is followed by a stop id. */
  ghost predicate CutsAtFirstStop(r: seq<int>, ids: seq<int>, stop: set<int>) {
    && r <= ids && (forall i :: 0 <= i < |r| ==> r[i] !in stop)
    && (|r| < |ids| ==> ids[|r|] in stop)
  }

  lemma {:induction false} TruncatedIsTheCut(r: seq<int>, ids: seq<int>, stop: set<int>)
    ensures r == Truncated(ids, stop) <==> CutsAtFirstStop(r, ids, stop)
  {
    if ids != [] && ids[0] !in stop {
      if r != [] {
        TruncatedIsTheCut(r[1..], ids[1..], stop);
        assert r == [r[0]] + r[1..] && ids == [ids[0]] + ids[1..];
        if CutsAtFirstStop(r, ids, stop) {
          assert CutsAtFirstStop(r[1..], ids[1..], stop);
        }
      }
    }
  }

  /** `truncate_at_stop`: build the prefix, stop at the first stop id. */
  method TruncateByAppending(ids: seq<int>, stop: set<int>) returns (out: seq<int>)
    ensures out == Truncated(ids, stop)
  {
    out := [];
    var i := 0;
    while i < |ids|
      invariant 0 <= i <= |ids| && out == ids[..i]
      invariant forall j :: 0 <= j < i ==> ids[j] !in stop
    {
      if ids[i] in stop {
        break;
      }
      out := out + [ids[i]];
      i := i + 1;
    }
    TruncatedIsTheCut(out, ids, stop);
  }

  /** `_truncate_at_stop` of the shared guard: slice at the first stop id. */
  method TruncateBySlicing(ids: seq<int>, stop: set<int>) returns (out: seq<int>)
    ensures out == Truncated(ids, stop)
  {
    for i := 0 to |ids|
      invariant forall j :: 0 <= j < i ==> ids[j] !in stop
    {
      if ids[i] in stop {
        TruncatedIsTheCut(ids[..i], ids, stop);
        return ids[..i];
      }
    }
    TruncatedIsTheCut(ids, ids, stop);
    return ids;
  }

  /** An absent end-of-turn token converts to no id or to a negative one. */
  function LlamaStops(eos: Option<int>, eot: Option<int>): set<int> {
    set id | id in (if eos.Some? then {eos.value} else {}) + (if eot.Some? then {eot.value} else {})
             && (eos == Some(id) || id >= 0)
  }

  lemma LlamaStopsExactly(eos: Option<int>, eot: Option<int>, id: int)
    ensures id in LlamaStops(eos, eot) <==> eos == Some(id) || (id >= 0 && eot == Some(id))
  {
  }

  /** The Llama demo's own truncation: its stop set is the end-of-sequence id and the end-of-turn id. */
  method TruncateLlama(ids: seq<int>, eos: Option<int>, eot: Option<int>) returns (out: seq<int>)
    ensures out == Truncated(ids, LlamaStops(eos, eot))
  {
    var stop: set<int> := {};
    if eos.Some? {
      stop := stop + {eos.value};
    }
    if eot.Some? && eot.value >= 0 {
      stop := stop + {eot.value};
    }
    assert stop == LlamaStops(eos, eot);
    out := TruncateBySlicing(ids, stop);
  }

  /** Cutting at S and then at T is cutting at S union T. */
  lemma {:induction false} TruncateTwice(ids: seq<int>, s: set<int>, t: set<int>)
    ensures Truncated(Truncated(ids, s), t) == Truncated(ids, s + t)
  {
    if ids != [] && ids[0] !in s {
      TruncateTwice(ids[1..], s, t);
      assert Truncated(ids, s)[1..] == Truncated(ids[1..], s);
    }
  }

  // ---- The guards

  predicate Offends(ids: seq<int>, special: set<int>, stop: set<int>) {
    exists i :: 0 <= i < |Truncated(ids, stop)| && Truncated(ids, stop)[i] in special
  }

  function Offenders(outputs: seq<seq<int>>, special: set<int>, stop: set<int>): (n: nat)
    ensures n <= |outputs|
  {
    if outputs == [] then 0
    else Offenders(outputs[..|outputs| - 1], special, stop)
         + if Offends(outputs[|outputs| - 1], special, stop) then 1 else 0
  }

  /** An output offends exactly if a special id stands in front of its first stop id. */
  lemma OffendsExactly(r: seq<int>, ids: seq<int>, special: set<int>, stop: set<int>)
    requires CutsAtFirstStop(r, ids, stop)
    ensures Offends(ids, special, stop) <==> exists i :: 0 <= i < |r| && r[i] in special
  {
    TruncatedIsTheCut(r, ids, stop);
  }

  ghost predicate UserOffends(outputs: seq<seq<int>>, u: int, special: set<int>, stop: set<int>) {
    0 <= u < |outputs| && Offends(outputs[u], special, stop)
  }

  /** Every user is counted once. */
  lemma {:induction false} OffendersExactly(
    outputs: seq<seq<int>>, special: set<int>, stop: set<int>, users: set<int>)
    requires forall u :: u in users <==> UserOffends(outputs, u, special, stop)
    ensures Offenders(outputs, special, stop) == |users|
  {
    if outputs == [] {
      forall u ensures u !in users {
        assert u in users <==> UserOffends(outputs, u, special, stop);
      }
    } else {
      var last := |outputs| - 1;
      var rest := users - {last};
      forall u ensures u in rest <==> UserOffends(outputs[..last], u, special, stop) {
        assert u in users <==> UserOffends(outputs, u, special, stop);
      }
      OffendersExactly(outputs[..last], special, stop, rest);
      assert last in users <==> UserOffends(outputs, last, special, stop);
      assert last in users ==> users == rest + {last};
      assert last !in users ==> users == rest;
    }
  }

  datatype Verdict = Clean | Warned(offenders: nat) | Failed(offenders: nat)

  function VerdictFor(offenders: nat, strict: bool): (v: Verdict) {
    if offenders == 0 then Clean else if strict then Failed(offenders) else Warned(offenders)
  }

  /** `assert_no_special_tokens`: warn locally, fail when strict. */
  method AssertNoSpecialTokens(outputs: seq<seq<int>>, special: set<int>, stop: set<int>, strict: bool)
    returns (v: Verdict)
    ensures v == VerdictFor(Offenders(outputs, special, stop), strict)
    ensures v == Clean <==> forall u :: 0 <= u < |outputs| ==> !Offends(outputs[u], special, stop)
    ensures v.Failed? ==> strict && v.offenders == Offenders(outputs, special, stop)
    ensures v.Warned? ==> !strict && v.offenders == Offenders(outputs, special, stop)
  {
    var offending := 0;
    for u := 0 to |outputs|
      invariant offending == Offenders(outputs[..u], special, stop)
    {
      var before := TruncateBySlicing(outputs[u], stop);
      assert outputs[..u + 1][..u] == outputs[..u];
      if exists i :: 0 <= i < |before| && before[i] in special {
        offending := offending + 1;
      }
    }
    assert outputs[..|outputs|] == outputs;
    NoOffenders(outputs, special, stop);
    return VerdictFor(offending, strict);
  }

  /** The Qwen guard: cut every output at the turn markers first, then apply the shared guard. */
  method AssertNoSpecialTokensQwen(
    outputs: seq<seq<int>>, turns: set<int>, special: set<int>, stop: set<int>, strict: bool) returns (v: Verdict)
    ensures v == VerdictFor(Offenders(outputs, special, turns + stop), strict)
  {
    var truncated: seq<seq<int>> := [];
    for u := 0 to |outputs|
      invariant |truncated| == u && forall j :: 0 <= j < u ==> truncated[j] == Truncated(outputs[j], turns)
    {
      var cut := TruncateBySlicing(outputs[u], turns);
      truncated := truncated + [cut];
    }
    v := AssertNoSpecialTokens(truncated, special, stop, strict);
    TwoStageOffenders(truncated, outputs, turns, special, stop);
  }

  lemma {:induction false} TwoStageOffenders(
    truncated: seq<seq<int>>, outputs: seq<seq<int>>, turns: set<int>, special: set<int>, stop: set<int>)
    requires |truncated| == |outputs|
    requires forall j :: 0 <= j < |outputs| ==> truncated[j] == Truncated(outputs[j], turns)
    ensures Offenders(truncated, special, stop) == Offenders(outputs, special, turns + stop)
  {
    if outputs != [] {
      var n := |outputs| - 1;
      TwoStageOffenders(truncated[..n], outputs[..n], turns, special, stop);
      TruncateTwice(outputs[n], turns, stop);
    }
  }

  /** The eval loop's garbage check: the first user whose cut output holds a special id that is no stop id. */
  method FindGarbage(outputs: seq<seq<int>>, special: set<int>, stop: set<int>) returns (user: Option<nat>)
    ensures user.Some? ==> user.value < |outputs| && Offends(outputs[user.value], special, stop)
    ensures user.Some? ==> forall u :: 0 <= u < user.value ==> !Offends(outputs[u], special, stop)
    ensures user == None <==> Offenders(outputs, special, stop) == 0
  {
    var garbage := special - stop;
    for u := 0 to |outputs|
      invariant forall j :: 0 <= j < u ==> !Offends(outputs[j], special, stop)
    {
      var ids := TruncateByAppending(outputs[u], stop);
      GarbageIsSpecial(outputs[u], special, stop);
      if exists i :: 0 <= i < |ids| && ids[i] in garbage {
        NoOffenders(outputs, special, stop);
        return Some(u);
      }
    }
    NoOffenders(outputs, special, stop);
    return None;
  }

  /** Removing the stop ids from the special ids changes nothing after the cut. */
  lemma GarbageIsSpecial(ids: seq<int>, special: set<int>, stop: set<int>)
    ensures Offends(ids, special - stop, stop) <==> Offends(ids, special, stop)
  {
    TruncatedIsTheCut(Truncated(ids, stop), ids, stop);
  }

  lemma {:induction false} NoOffenders(outputs: seq<seq<int>>, special: set<int>, stop: set<int>)
    ensures Offenders(outputs, special, stop) == 0
       <==> forall u :: 0 <= u < |outputs| ==> !Offends(outputs[u], special, stop)
  {
    if outputs != [] {
      NoOffenders(outputs[..|outputs| - 1], special, stop);
    }
  }
}
