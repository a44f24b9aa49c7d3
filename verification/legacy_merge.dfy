/**
 * The partition loop of `processar_pdf_e_gerar_saidas` in testedeprocessar.py. For each
 * partition of block names, in order, the configured blocks among them are sent to the model
 * in one call; a partition with no configured block is skipped without a call. A truthy
 * reply is merged into the combined result with `dict.update` (last write wins), which raises
 * when the reply is not an object; a missing or falsy reply marks the run as not fully
 * successful and ends it unless a window is open and the operator chooses to go on. An empty
 * combined result fails the run as well.
 * The call (with its decoding) and the operator's answer are oracles indexed by the partition's
 * position.
 */
module LegacyMerge {

  import opened Wrappers
  import opened Json
  import opened Assoc

  /** What the loop depends on: the block configuration, the partitions and the two oracles. */
  datatype Env = Env(
    config: Dict<Json>,
    parts: seq<seq<string>>,
    reply: nat -> Option<Json>,
    window: bool,
    proceed: nat -> bool)

  /** `blocos_config_parcial`: the configured blocks among a partition's names. */
  function Partial(config: Dict<Json>, names: seq<string>): Dict<Json>
    decreases |names|
  {
    if names == [] then []
    else
      var acc := Partial(config, names[..|names| - 1]);
      var n := names[|names| - 1];
      match Get(config, n)
      case Some(b) => Put(acc, n, b)
      case None => acc
  }

  /** Names unknown to the configuration are dropped; the others keep their configured block. */
  lemma {:induction false} PartialGet(config: Dict<Json>, names: seq<string>, n: string)
    ensures Get(Partial(config, names), n) == if n in names then Get(config, n) else None
    decreases |names|
  {
    if names != [] {
      var init := names[..|names| - 1];
      var last := names[|names| - 1];
      assert names == init + [last];
      PartialGet(config, init, n);
      match Get(config, last)
      case Some(b) => GetPut(Partial(config, init), last, b, n);
      case None =>
    }
  }

  /** A partition is skipped exactly when none of its names is configured. */
  lemma PartialEmpty(config: Dict<Json>, names: seq<string>)
    ensures Partial(config, names) == [] <==> forall n :: n in names ==> !HasKey(config, n)
  {
    var p := Partial(config, names);
    if p != [] {
      assert HasKey(p, p[0].0);
      PartialGet(config, names, p[0].0);
    }
    forall n | n in names && HasKey(config, n)
      ensures p != []
    {
      PartialGet(config, names, n);
    }
  }

  /** Python's truth value of a decoded reply. */
  predicate Truthy(j: Json) {
    match j
    case Leaf(v) => (
      match v
      case Null => false
      case Bool(b) => b
      case Int(n) => n != 0
      case Float(t) => t != "0.0" && t != "-0.0"
      case Str(t) => t != "")
    case Arr(items) => items != []
    case Obj(fields) => fields != []
  }

  /**
   * What happens to one partition: skipped without a call, merged, failed, or the merge
   * raises because the reply is not an object.
   */
  datatype Kind = Skipped | Replied(r: Dict<Json>) | Failed | Raised

  /** The kind of partition `i`: a reply counts only when it is truthy (`if resultado_parcial:`). */
  function KindOf(env: Env, i: nat): (k: Kind)
    requires i < |env.parts|
    ensures k.Replied? ==> k.r != []
  {
    if Partial(env.config, env.parts[i]) == [] then Skipped
    else match env.reply(i)
      case Some(j) => if !Truthy(j) then Failed else if j.Obj? then Replied(j.fields) else Raised
      case None => Failed
  }

  function Kinds(env: Env): (ks: seq<Kind>)
    ensures |ks| == |env.parts| && forall i :: 0 <= i < |ks| ==> ks[i] == KindOf(env, i)
  {
    seq(|env.parts|, i requires 0 <= i < |env.parts| => KindOf(env, i))
  }

  /**
   * Partition `i` ends the run: its merge raises, or it fails and the run does not go on,
   * which it does only if a window is open and the operator agrees.
   */
  predicate Stops(ks: seq<Kind>, window: bool, proceed: nat -> bool, i: nat)
    requires i < |ks|
  {
    ks[i].Raised? || (ks[i].Failed? && !(window && proceed(i)))
  }

  /** No partition before `i` ends the run. */
  predicate Clear(ks: seq<Kind>, window: bool, proceed: nat -> bool, i: nat)
    requires i <= |ks|
  {
    forall j :: 0 <= j < i ==> !Stops(ks, window, proceed, j)
  }

  /**
   * `resultado_final_combinado_ia`, `sucesso_geral_api`, whether the run has ended (returned
   * False or raised), and whether it raised.
   */
  datatype State = State(combined: Dict<Json>, ok: bool, stopped: bool, raised: bool)

  /** One partition of the loop. */
  function Step(ks: seq<Kind>, window: bool, proceed: nat -> bool, st: State, i: nat): State
    requires i < |ks|
  {
    if st.stopped then st
    else match ks[i]
      case Skipped => st
      case Replied(r) => st.(combined := Update(st.combined, r))
      case Failed => st.(ok := false, stopped := !(window && proceed(i)))
      case Raised => st.(stopped := true, raised := true)
  }

  /** The state after the first `n` partitions. */
  function RunTo(ks: seq<Kind>, window: bool, proceed: nat -> bool, n: nat): State
    requires n <= |ks|
    decreases n
  {
    if n == 0 then State([], true, false, false) else Step(ks, window, proceed, RunTo(ks, window, proceed, n - 1), n - 1)
  }

  /** How the run ends: an exception, or a return with the combined result or None (False). */
  datatype Outcome = Raises | Returns(result: Option<Dict<Json>>)

  /** The combined result the run goes on with, None when it returns False, or the exception. */
  function Merge(env: Env): Outcome {
    var st := RunTo(Kinds(env), env.window, env.proceed, |env.parts|);
    if st.raised then Raises
    else if st.stopped || st.combined == [] then Returns(None)
    else Returns(Some(st.combined))
  }

  /**
   * The loop and the two checks after it. `KindOf` builds the partition's configured blocks and,
   * when there are any, makes the call.
   */
  method MergePartitions(env: Env) returns (r: Outcome)
    ensures r == Merge(env)
  {
    ghost var ks := Kinds(env);
    var combined: Dict<Json> := [];
    var ok := true;
    for i := 0 to |env.parts|
      invariant RunTo(ks, env.window, env.proceed, i) == State(combined, ok, false, false)
    {
      RunToNext(ks, env.window, env.proceed, i);
      assert ks[i] == KindOf(env, i);
      var kind := KindOf(env, i);
      match kind
      case Skipped =>
      case Replied(reply) =>
        combined := Update(combined, reply);
      case Failed =>
        ok := false;
        if !(env.window && env.proceed(i)) {
          StoppedStays(ks, env.window, env.proceed, i + 1, |env.parts|);
          return Returns(None);
        }
      case Raised =>
        StoppedStays(ks, env.window, env.proceed, i + 1, |env.parts|);
        return Raises;
    }
    if !ok && combined == [] {
      return Returns(None);
    }
    if combined == [] {
      return Returns(None);
    }
    r := Returns(Some(combined));
  }

  lemma RunToNext(ks: seq<Kind>, window: bool, proceed: nat -> bool, i: nat)
    requires i < |ks|
    ensures RunTo(ks, window, proceed, i + 1) == Step(ks, window, proceed, RunTo(ks, window, proceed, i), i)
  {
  }

  /** What one partition does to the flags. */
  lemma StepFlags(ks: seq<Kind>, window: bool, proceed: nat -> bool, st: State, i: nat)
    requires i < |ks|
    ensures Step(ks, window, proceed, st, i).stopped == (st.stopped || Stops(ks, window, proceed, i))
    ensures Step(ks, window, proceed, st, i).raised == (st.raised || (!st.stopped && ks[i].Raised?))
    ensures !st.stopped ==> Step(ks, window, proceed, st, i).ok == (st.ok && !ks[i].Failed?)
    ensures st.stopped ==> Step(ks, window, proceed, st, i) == st
  {
  }

  /** A run that has ended stays as it was. */
  lemma {:induction false} StoppedStays(ks: seq<Kind>, window: bool, proceed: nat -> bool, n: nat, m: nat)
    requires n <= m <= |ks| && RunTo(ks, window, proceed, n).stopped
    ensures RunTo(ks, window, proceed, m) == RunTo(ks, window, proceed, n)
    decreases m - n
  {
    if n < m {
      StoppedStays(ks, window, proceed, n, m - 1);
      StepFlags(ks, window, proceed, RunTo(ks, window, proceed, m - 1), m - 1);
    }
  }

  /** The run ends inside the loop exactly when some partition raises, or fails and it may not go on. */
  lemma {:induction false} StoppedIff(ks: seq<Kind>, window: bool, proceed: nat -> bool, n: nat)
    requires n <= |ks|
    ensures RunTo(ks, window, proceed, n).stopped <==> exists i :: 0 <= i < n && Stops(ks, window, proceed, i)
    decreases n
  {
    if n > 0 {
      StoppedIff(ks, window, proceed, n - 1);
      StepFlags(ks, window, proceed, RunTo(ks, window, proceed, n - 1), n - 1);
      if Stops(ks, window, proceed, n - 1) {
        assert 0 <= n - 1 < n && Stops(ks, window, proceed, n - 1);
      } else if exists i :: 0 <= i < n && Stops(ks, window, proceed, i) {
        var i :| 0 <= i < n && Stops(ks, window, proceed, i);
        assert i < n - 1;
      }
    }
  }

  /** The run raises exactly when the first partition that ends it is one whose merge raises. */
  lemma {:induction false} RaisedIff(ks: seq<Kind>, window: bool, proceed: nat -> bool, n: nat)
    requires n <= |ks|
    ensures RunTo(ks, window, proceed, n).raised <==>
      exists i :: 0 <= i < n && ks[i].Raised? && Clear(ks, window, proceed, i)
    decreases n
  {
    if n > 0 {
      var st := RunTo(ks, window, proceed, n - 1);
      RaisedIff(ks, window, proceed, n - 1);
      StoppedIff(ks, window, proceed, n - 1);
      StepFlags(ks, window, proceed, st, n - 1);
      assert !st.stopped <==> Clear(ks, window, proceed, n - 1);
      if RunTo(ks, window, proceed, n).raised && !st.raised {
        assert ks[n - 1].Raised? && Clear(ks, window, proceed, n - 1);
      }
      if exists i :: 0 <= i < n && ks[i].Raised? && Clear(ks, window, proceed, i) {
        var i :| 0 <= i < n && ks[i].Raised? && Clear(ks, window, proceed, i);
        if i == n - 1 {
          assert !st.stopped;
        } else {
          assert st.raised;
        }
      }
    }
  }

  /** While it runs, `sucesso_geral_api` says that no partition so far has failed. */
  lemma {:induction false} OkIff(ks: seq<Kind>, window: bool, proceed: nat -> bool, n: nat)
    requires n <= |ks|
    requires !RunTo(ks, window, proceed, n).stopped
    ensures RunTo(ks, window, proceed, n).ok <==> forall i :: 0 <= i < n ==> !ks[i].Failed?
    decreases n
  {
    if n > 0 {
      StepFlags(ks, window, proceed, RunTo(ks, window, proceed, n - 1), n - 1);
      OkIff(ks, window, proceed, n - 1);
    }
  }

  /** The value of key `k` from the last merged reply among the first `n` partitions that has it. */
  function LastValue(ks: seq<Kind>, k: string, n: nat): Option<Json>
    requires n <= |ks|
    decreases n
  {
    if n == 0 then None
    else if ks[n - 1].Replied? && HasKey(ks[n - 1].r, k) then Get(ks[n - 1].r, k)
    else LastValue(ks, k, n - 1)
  }

  /** Last write wins: each key of the combined result holds the value of the last reply that has it. */
  lemma {:induction false} MergeGet(ks: seq<Kind>, window: bool, proceed: nat -> bool, k: string, n: nat)
    requires n <= |ks|
    requires forall i :: 0 <= i < |ks| && ks[i].Replied? ==> IsDict(ks[i].r)
    requires !RunTo(ks, window, proceed, n).stopped
    ensures Get(RunTo(ks, window, proceed, n).combined, k) == LastValue(ks, k, n)
    decreases n
  {
    if n > 0 {
      var st := RunTo(ks, window, proceed, n - 1);
      StepFlags(ks, window, proceed, st, n - 1);
      MergeGet(ks, window, proceed, k, n - 1);
      if ks[n - 1].Replied? {
        GetUpdate(st.combined, ks[n - 1].r, k);
      }
    }
  }

  /** A run that raised has ended. */
  lemma {:induction false} RaisedStops(ks: seq<Kind>, window: bool, proceed: nat -> bool, n: nat)
    requires n <= |ks|
    ensures RunTo(ks, window, proceed, n).raised ==> RunTo(ks, window, proceed, n).stopped
    decreases n
  {
    if n > 0 {
      RaisedStops(ks, window, proceed, n - 1);
      StepFlags(ks, window, proceed, RunTo(ks, window, proceed, n - 1), n - 1);
    }
  }

  /** While it runs, the combined result is empty exactly when no reply has been merged. */
  lemma {:induction false} CombinedEmptyIff(ks: seq<Kind>, window: bool, proceed: nat -> bool, n: nat)
    requires n <= |ks|
    requires forall i :: 0 <= i < |ks| && ks[i].Replied? ==> ks[i].r != []
    requires !RunTo(ks, window, proceed, n).stopped
    ensures RunTo(ks, window, proceed, n).combined == [] <==> forall i :: 0 <= i < n ==> !ks[i].Replied?
    decreases n
  {
    if n > 0 {
      var st := RunTo(ks, window, proceed, n - 1);
      StepFlags(ks, window, proceed, st, n - 1);
      CombinedEmptyIff(ks, window, proceed, n - 1);
      if ks[n - 1].Replied? {
        var e := ks[n - 1].r;
        UpdateKeys(st.combined, e);
        assert HasKey(e, e[0].0);
        assert HasKey(Update(st.combined, e), e[0].0);
      }
    }
  }

  /**
   * The run raises exactly when the first partition that ends it is one whose merge raises.
   * It goes on exactly when no partition ends it and at least one reply is merged; its result
   * then holds, for every key, the value of the last merged reply that has the key.
   */
  lemma MergeSpec(env: Env, k: string)
    requires forall i :: 0 <= i < |env.parts| && env.reply(i).Some? && env.reply(i).value.Obj? ==>
      IsDict(env.reply(i).value.fields)
    ensures var ks := Kinds(env);
      && (Merge(env) == Raises <==>
            exists i :: 0 <= i < |ks| && ks[i].Raised? && Clear(ks, env.window, env.proceed, i))
      && (Merge(env).Returns? && Merge(env).result.Some? <==>
            Clear(ks, env.window, env.proceed, |ks|)
            && exists i :: 0 <= i < |ks| && ks[i].Replied?)
      && (Merge(env).Returns? && Merge(env).result.Some? ==> Get(Merge(env).result.value, k) == LastValue(ks, k, |ks|))
  {
    var ks := Kinds(env);
    var n := |ks|;
    StoppedIff(ks, env.window, env.proceed, n);
    RaisedIff(ks, env.window, env.proceed, n);
    RaisedStops(ks, env.window, env.proceed, n);
    if !RunTo(ks, env.window, env.proceed, n).stopped {
      CombinedEmptyIff(ks, env.window, env.proceed, n);
      MergeGet(ks, env.window, env.proceed, k, n);
    }
  }

  /**
   * A partition with a configured block is merged exactly when its reply is a non-empty object,
   * fails when its reply is missing or falsy, and raises when its reply is truthy but not an
   * object.
   */
  lemma KindSpec(env: Env, i: nat)
    requires i < |env.parts|
    ensures KindOf(env, i).Skipped? <==> forall n :: n in env.parts[i] ==> !HasKey(env.config, n)
    ensures KindOf(env, i).Replied? <==>
      !KindOf(env, i).Skipped? && env.reply(i).Some? && env.reply(i).value.Obj? && env.reply(i).value.fields != []
    ensures KindOf(env, i).Replied? ==> KindOf(env, i).r == env.reply(i).value.fields
    ensures KindOf(env, i).Failed? <==>
      !KindOf(env, i).Skipped? && (env.reply(i).None? || !Truthy(env.reply(i).value))
    ensures KindOf(env, i).Raised? <==>
      !KindOf(env, i).Skipped? && env.reply(i).Some? && Truthy(env.reply(i).value) && !env.reply(i).value.Obj?
  {
    PartialEmpty(env.config, env.parts[i]);
  }
}
