/** The commit-hook registry of an atomic operation: hooks grouped by their
    Rust type, offered to the last hook of the same type to `merge` with, run
    before commit in one pass that hands on the hooks `pre_commit` returns,
    then those run after commit. A hook type's `merge` and `pre_commit` are
    parameters of the model. */
module CommitHooks {
  import opened Wrappers

  /** The `TypeId` of a hook's Rust type. */
  type TypeId = int

  /** A hook value: the type it belongs to and the data it carries. */
  datatype Hook = Hook(typeId: TypeId, data: seq<string>)

  /** The `sqlx::Error` a `pre_commit` fails with. */
  type HookError = string

  /** What `merge(&mut last, &mut other)` leaves behind: both hooks, which it
      may have changed, and whether it absorbed `other`. */
  datatype MergeResult = MergeResult(last: Hook, other: Hook, accepted: bool)

  /** What the operation has seen of each pre- or post-commit call, in call order:
      the data of the hook that ran. */
  type Log = seq<seq<string>>

  /** The default `CommitHook::merge`: never merges and changes nothing. */
  function DefaultMerge(last: Hook, other: Hook): (r: MergeResult)
    ensures !r.accepted && r.last == last && r.other == other
  {
    MergeResult(last, other, false)
  }

  /** A merging hook type's `merge`, as the module documentation and the
      tests write it: the other hook's data is appended to the last one's. */
  function AppendingMerge(last: Hook, other: Hook): (r: MergeResult)
    ensures r.accepted && r.last.typeId == last.typeId && r.last.data == last.data + other.data
  {
    MergeResult(last.(data := last.data + other.data), other.(data := []), true)
  }

  /** The default `CommitHook::pre_commit`: succeeds and hands the hook on unchanged. */
  function DefaultPreCommit(h: Hook): (r: Result<Hook, HookError>)
    ensures r.Ok? && r.value == h
  {
    Ok(h)
  }

  /** The registry after `add`: the new hook is offered to the last hook of its
      type; both stay if `merge` declines (as `merge` left them), only the last
      one if it accepts. */
  function AddSpec(hooks: map<TypeId, seq<Hook>>, h: Hook, merge: (Hook, Hook) -> MergeResult): map<TypeId, seq<Hook>>
  {
    var v := if h.typeId in hooks then hooks[h.typeId] else [];
    if |v| == 0 then hooks[h.typeId := [h]]
    else
      var m := merge(v[|v| - 1], h);
      if m.accepted then hooks[h.typeId := v[..|v| - 1] + [m.last]]
      else hooks[h.typeId := v[..|v| - 1] + [m.last, m.other]]
  }

  /** Adding hooks one after the other. */
  function AddAll(hooks: map<TypeId, seq<Hook>>, hs: seq<Hook>, merge: (Hook, Hook) -> MergeResult): map<TypeId, seq<Hook>>
  {
    if hs == [] then hooks else AddSpec(AddAll(hooks, hs[..|hs| - 1], merge), hs[|hs| - 1], merge)
  }

  /** `order` lists every registered type exactly once: one of the orders
      `HashMap::drain` may visit them in. */
  predicate Enumerates(order: seq<TypeId>, hooks: map<TypeId, seq<Hook>>)
  {
    (forall i :: 0 <= i < |order| ==> order[i] in hooks) &&
    (forall t :: t in hooks ==> t in order) &&
    (forall i, j :: 0 <= i < j < |order| ==> order[i] != order[j])
  }

  /** The hooks of the listed types, type after type, each type's list in order. */
  function Flatten(hooks: map<TypeId, seq<Hook>>, order: seq<TypeId>): seq<Hook>
    requires forall i :: 0 <= i < |order| ==> order[i] in hooks
  {
    if order == [] then [] else hooks[order[0]] + Flatten(hooks, order[1..])
  }

  /** The state of the pre-commit pass: what the operation has seen, and the
      hooks `pre_commit` has returned so far. */
  datatype Pass = Pass(op: Log, post: seq<Hook>)

  /** The pre-commit pass over `hs`: each hook's `pre_commit` sees the
      operation and returns the hook to run after commit; the first error aborts. */
  function RunPre(hs: seq<Hook>, preCommit: Hook -> Result<Hook, HookError>, acc: Pass): Result<Pass, HookError>
  {
    if hs == [] then Ok(acc)
    else
      match preCommit(hs[0])
      case Err(e) => Err(e)
      case Ok(h) => RunPre(hs[1..], preCommit, Pass(acc.op + [hs[0].data], acc.post + [h]))
  }

  /** The data of each hook, in list order. */
  function Datas(hs: seq<Hook>): (r: Log)
    ensures |r| == |hs|
    ensures forall i :: 0 <= i < |hs| ==> r[i] == hs[i].data
  {
    if hs == [] then [] else [hs[0].data] + Datas(hs[1..])
  }

  /** The pre-commit pass succeeds exactly when every hook's `pre_commit` does. */
  lemma {:induction false} RunPreSucceeds(hs: seq<Hook>, preCommit: Hook -> Result<Hook, HookError>, acc: Pass)
    ensures RunPre(hs, preCommit, acc).Ok? <==> forall i :: 0 <= i < |hs| ==> preCommit(hs[i]).Ok?
  {
    if hs != [] && preCommit(hs[0]).Ok? {
      var rest := hs[1..];
      RunPreSucceeds(rest, preCommit, Pass(acc.op + [hs[0].data], acc.post + [preCommit(hs[0]).value]));
      assert forall i :: 1 <= i < |hs| ==> hs[i] == rest[i - 1];
    }
  }

  /** A successful pre-commit pass has shown every hook to the operation once,
      in list order, and collected, in the same order, the hook each
      `pre_commit` returned. */
  lemma {:induction false} RunPreRunsAll(hs: seq<Hook>, preCommit: Hook -> Result<Hook, HookError>, acc: Pass)
    ensures var r := RunPre(hs, preCommit, acc);
      r.Ok? ==>
        r.value.op == acc.op + Datas(hs) &&
        |r.value.post| == |acc.post| + |hs| && r.value.post[..|acc.post|] == acc.post &&
        forall i :: 0 <= i < |hs| ==> preCommit(hs[i]) == Ok(r.value.post[|acc.post| + i])
  {
    if hs != [] && preCommit(hs[0]).Ok? {
      var rest := hs[1..];
      var acc' := Pass(acc.op + [hs[0].data], acc.post + [preCommit(hs[0]).value]);
      RunPreRunsAll(rest, preCommit, acc');
      var r := RunPre(hs, preCommit, acc);
      assert r == RunPre(rest, preCommit, acc');
      assert Datas(hs) == [hs[0].data] + Datas(rest);
      AppendAssoc(acc.op, [hs[0].data], Datas(rest));
      if r.Ok? {
        assert r.value.post[..|acc'.post|][..|acc.post|] == r.value.post[..|acc.post|];
        forall i | 0 <= i < |hs|
          ensures preCommit(hs[i]) == Ok(r.value.post[|acc.post| + i])
        {
          if i == 0 {
            assert r.value.post[|acc.post|] == r.value.post[..|acc'.post|][|acc.post|];
          } else {
            assert hs[i] == rest[i - 1];
          }
        }
      }
    }
  }

  lemma AppendAssoc<T>(a: seq<T>, b: seq<T>, c: seq<T>)
    ensures (a + b) + c == a + (b + c)
  {
  }

  /** When the pre-commit pass fails, it fails with the error of the first
      failing hook. */
  lemma {:induction false} RunPreFirstFailure(hs: seq<Hook>, preCommit: Hook -> Result<Hook, HookError>, acc: Pass)
    ensures RunPre(hs, preCommit, acc).Err? ==> exists i :: (0 <= i < |hs| &&
      preCommit(hs[i]) == Err(RunPre(hs, preCommit, acc).error) && forall j :: 0 <= j < i ==> preCommit(hs[j]).Ok?)
  {
    if hs != [] && preCommit(hs[0]).Ok? && RunPre(hs, preCommit, acc).Err? {
      var rest := hs[1..];
      var acc' := Pass(acc.op + [hs[0].data], acc.post + [preCommit(hs[0]).value]);
      RunPreFirstFailure(rest, preCommit, acc');
      assert RunPre(hs, preCommit, acc) == RunPre(rest, preCommit, acc');
      var i :| 0 <= i < |rest| && preCommit(rest[i]) == Err(RunPre(rest, preCommit, acc').error)
        && forall j :: 0 <= j < i ==> preCommit(rest[j]).Ok?;
      forall j | 0 <= j < i + 1
        ensures preCommit(hs[j]).Ok?
      {
        if j > 0 { assert hs[j] == rest[j - 1]; }
      }
      assert hs[i + 1] == rest[i];
    }
  }

  /** When every `pre_commit` hands its hook on unchanged, as the default one
      does, the hooks run after commit are the registered ones. */
  lemma {:induction false} PassThroughKeepsHooks(hs: seq<Hook>, preCommit: Hook -> Result<Hook, HookError>, acc: Pass)
    requires forall i :: 0 <= i < |hs| ==> preCommit(hs[i]) == Ok(hs[i])
    ensures RunPre(hs, preCommit, acc) == Ok(Pass(acc.op + Datas(hs), acc.post + hs))
  {
    if hs != [] {
      var rest := hs[1..];
      assert forall i :: 0 <= i < |rest| ==> rest[i] == hs[i + 1];
      PassThroughKeepsHooks(rest, preCommit, Pass(acc.op + [hs[0].data], acc.post + [hs[0]]));
      assert Datas(hs) == [hs[0].data] + Datas(rest);
      AppendAssoc(acc.op, [hs[0].data], Datas(rest));
      AppendAssoc(acc.post, [hs[0]], rest);
      assert [hs[0]] + rest == hs;
    } else {
      assert acc.op + Datas(hs) == acc.op && acc.post + hs == acc.post;
    }
  }

  /** Without merging, adding hooks of one type keeps each of them, in order. */
  lemma {:induction false} NoMergeKeepsAll(hs: seq<Hook>, t: TypeId)
    requires forall i :: 0 <= i < |hs| ==> hs[i].typeId == t
    ensures var m := AddAll(map[], hs, DefaultMerge);
      (hs == [] ==> m == map[]) && (hs != [] ==> m.Keys == {t} && m[t] == hs)
  {
    if hs != [] {
      var front := hs[..|hs| - 1];
      var last := hs[|hs| - 1];
      NoMergeKeepsAll(front, t);
      var m0 := AddAll(map[], front, DefaultMerge);
      assert AddAll(map[], hs, DefaultMerge) == AddSpec(m0, last, DefaultMerge);
      assert last.typeId == t;
      if front == [] {
        assert AddSpec(m0, last, DefaultMerge) == map[t := [last]];
        assert [last] == hs;
      } else {
        var f := front[|front| - 1];
        assert DefaultMerge(f, last) == MergeResult(f, last, false);
        assert AddSpec(m0, last, DefaultMerge) == m0[t := front[..|front| - 1] + [f, last]];
        assert front[..|front| - 1] + [f, last] == hs;
      }
    }
  }

  /** Three non-merging hooks of one type whose `pre_commit` hands them on:
      three pre-commits and three post-commits. */
  lemma ThreeUnmergedHooksRunSeparately(t: TypeId, preCommit: Hook -> Result<Hook, HookError>)
    requires preCommit(Hook(t, [])) == Ok(Hook(t, []))
    ensures var m := AddAll(map[], [Hook(t, []), Hook(t, []), Hook(t, [])], DefaultMerge);
      t in m && m.Keys == {t} &&
      RunPre(Flatten(m, [t]), preCommit, Pass([], [])) == Ok(Pass([[], [], []], [Hook(t, []), Hook(t, []), Hook(t, [])])) &&
      Datas([Hook(t, []), Hook(t, []), Hook(t, [])]) == [[], [], []]
  {
    var h := Hook(t, []);
    var hs := [h, h, h];
    ThreeHooksRegistered(t);
    PassThroughKeepsHooks(hs, preCommit, Pass([], []));
    assert Datas(hs) == [[], [], []];
    assert [] + Datas(hs) == Datas(hs) && [] + hs == hs;
  }

  lemma ThreeHooksRegistered(t: TypeId)
    ensures var m := AddAll(map[], [Hook(t, []), Hook(t, []), Hook(t, [])], DefaultMerge);
      t in m && m.Keys == {t} && Flatten(m, [t]) == [Hook(t, []), Hook(t, []), Hook(t, [])]
  {
    var hs := [Hook(t, []), Hook(t, []), Hook(t, [])];
    NoMergeKeepsAll(hs, t);
    assert [t][1..] == [];
  }

  /** Two appending hooks carrying ["e1"] and ["e2", "e3"] become one hook that
      runs once before and once after commit with ["e1", "e2", "e3"]. */
  lemma MergedHooksRunOnce(t: TypeId, preCommit: Hook -> Result<Hook, HookError>)
    requires preCommit(Hook(t, ["e1", "e2", "e3"])) == Ok(Hook(t, ["e1", "e2", "e3"]))
    ensures var m := AddAll(map[], [Hook(t, ["e1"]), Hook(t, ["e2", "e3"])], AppendingMerge);
      t in m && m[t] == [Hook(t, ["e1", "e2", "e3"])] &&
      RunPre(Flatten(m, [t]), preCommit, Pass([], [])) == Ok(Pass([["e1", "e2", "e3"]], [Hook(t, ["e1", "e2", "e3"])]))
  {
    var f: (Hook, Hook) -> MergeResult := AppendingMerge;
    var h1, h2 := Hook(t, ["e1"]), Hook(t, ["e2", "e3"]);
    var hs := [h1, h2];
    assert hs[..1][..0] == [];
    assert hs[..1] == [h1];
    var m1 := AddSpec(map[], h1, f);
    assert m1 == map[t := [h1]];
    assert AddAll(map[], hs[..1], f) == m1;
    var m := AddAll(map[], hs, f);
    assert m == AddSpec(m1, h2, f);
    var merged := Hook(t, ["e1", "e2", "e3"]);
    assert ["e1"] + ["e2", "e3"] == ["e1", "e2", "e3"];
    assert f(h1, h2).last == merged;
    assert [h1][..0] + [merged] == [merged];
    assert m == map[t := [merged]];
    assert [t][1..] == [];
    assert Flatten(m, [t]) == [merged];
    assert [merged][1..] == [];
    assert RunPre([merged], preCommit, Pass([], [])) == RunPre([], preCommit, Pass([] + [merged.data], [] + [merged]));
    assert [] + [merged.data] == [merged.data] && [] + [merged] == [merged];
  }

  /** Appending a hook appends its data. */
  lemma DatasSnoc(hs: seq<Hook>, h: Hook)
    ensures Datas(hs + [h]) == Datas(hs) + [h.data]
  {
    var l, r := Datas(hs + [h]), Datas(hs) + [h.data];
    forall i | 0 <= i < |l|
      ensures l[i] == r[i]
    {
      if i < |hs| { assert (hs + [h])[i] == hs[i]; }
    }
  }

  /** `PostCommitHooks`: the hooks that the pre-commit pass returned, in that order. */
  datatype PostCommitHooks = PostCommitHooks(hooks: seq<Hook>)

  /** `PostCommitHooks::execute`: runs every `post_commit`, in order. */
  method ExecutePost(post: PostCommitHooks, log: Log) returns (out: Log)
    ensures out == log + Datas(post.hooks)
  {
    out := log;
    var i := 0;
    while i < |post.hooks|
      invariant 0 <= i <= |post.hooks|
      invariant out == log + Datas(post.hooks[..i])
    {
      assert post.hooks[..i + 1] == post.hooks[..i] + [post.hooks[i]];
      DatasSnoc(post.hooks[..i], post.hooks[i]);
      out := out + [post.hooks[i].data];
      i := i + 1;
    }
    assert post.hooks[..|post.hooks|] == post.hooks;
  }

  /** The pre-commit pass over a concatenation is the pass over the first part,
      then, if that succeeded, the pass over the second. */
  lemma {:induction false} RunPreAppend(a: seq<Hook>, b: seq<Hook>, preCommit: Hook -> Result<Hook, HookError>, acc: Pass)
    ensures RunPre(a + b, preCommit, acc) ==
      match RunPre(a, preCommit, acc)
      case Ok(acc') => RunPre(b, preCommit, acc')
      case Err(e) => Err(e)
  {
    if a != [] {
      assert (a + b)[0] == a[0] && (a + b)[1..] == a[1..] + b;
      if preCommit(a[0]).Ok? {
        RunPreAppend(a[1..], b, preCommit, Pass(acc.op + [a[0].data], acc.post + [preCommit(a[0]).value]));
      }
    } else {
      assert a + b == b;
    }
  }

  /** The `pre_commit` calls of one type's hooks, in list order. */
  method PreCommitGroup(v: seq<Hook>, preCommit: Hook -> Result<Hook, HookError>, acc0: Pass) returns (r: Result<Pass, HookError>)
    ensures r == RunPre(v, preCommit, acc0)
  {
    var acc := acc0;
    var j := 0;
    while j < |v|
      invariant 0 <= j <= |v|
      invariant RunPre(v[j..], preCommit, acc) == RunPre(v, preCommit, acc0)
    {
      assert v[j..][0] == v[j] && v[j..][1..] == v[j + 1..];
      var ret := preCommit(v[j]);
      if ret.Err? {
        return Err(ret.error);
      }
      acc := Pass(acc.op + [v[j].data], acc.post + [ret.value]);
      j := j + 1;
    }
    return Ok(acc);
  }

  lemma FlattenStep(hooks: map<TypeId, seq<Hook>>, order: seq<TypeId>, i: nat)
    requires forall k :: 0 <= k < |order| ==> order[k] in hooks
    requires i < |order|
    ensures Flatten(hooks, order[i..]) == hooks[order[i]] + Flatten(hooks, order[i + 1..])
  {
    assert order[i..][1..] == order[i + 1..];
  }

  class CommitHooksRegistry {
    var hooks: map<TypeId, seq<Hook>>

    /** `CommitHooks::new`: no hooks. */
    constructor ()
      ensures hooks == map[]
    {
      hooks := map[];
    }

    /** `add`: offer the hook to the last hook of its type; keep only that one
        if `merge` accepts, otherwise append the new hook; other types are untouched. */
    method Add(h: Hook, merge: (Hook, Hook) -> MergeResult)
      modifies this
      ensures hooks == AddSpec(old(hooks), h, merge)
      ensures forall t :: t != h.typeId && t in old(hooks) ==> t in hooks && hooks[t] == old(hooks)[t]
    {
      var v := if h.typeId in hooks then hooks[h.typeId] else [];
      if |v| > 0 {
        var m := merge(v[|v| - 1], h);
        if m.accepted {
          hooks := hooks[h.typeId := v[..|v| - 1] + [m.last]];
          return;
        }
        hooks := hooks[h.typeId := v[..|v| - 1] + [m.last, m.other]];
        return;
      }
      hooks := hooks[h.typeId := [h]];
    }

    /** `execute_pre`: drains the registry type by type (in `order`) and runs each
        hook's `pre_commit`, threading the operation; the first error aborts.
        On success the hooks the calls returned, in that order, go on to post-commit. */
    method ExecutePre(order: seq<TypeId>, preCommit: Hook -> Result<Hook, HookError>, op0: Log)
      returns (r: Result<PostCommitHooks, HookError>, op: Log)
      requires Enumerates(order, hooks)
      modifies this
      ensures hooks == map[]
      ensures var spec := RunPre(Flatten(old(hooks), order), preCommit, Pass(op0, []));
        (r.Ok? <==> spec.Ok?) &&
        (r.Ok? ==> r.value.hooks == spec.value.post && op == spec.value.op) &&
        (r.Err? ==> r.error == spec.error)
    {
      var all := hooks;
      hooks := map[];
      ghost var total := Flatten(all, order);
      var acc := Pass(op0, []);
      var i := 0;
      while i < |order|
        invariant 0 <= i <= |order|
        invariant hooks == map[]
        invariant RunPre(Flatten(all, order[i..]), preCommit, acc) == RunPre(total, preCommit, Pass(op0, []))
      {
        var v := all[order[i]];
        FlattenStep(all, order, i);
        RunPreAppend(v, Flatten(all, order[i + 1..]), preCommit, acc);
        var g := PreCommitGroup(v, preCommit, acc);
        if g.Err? {
          return Err(g.error), acc.op;
        }
        acc := g.value;
        i := i + 1;
      }
      assert order[|order|..] == [];
      return Ok(PostCommitHooks(acc.post)), acc.op;
    }
  }

}
