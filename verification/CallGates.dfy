/**
 * Calls from one cubicle to another.  The generated gate pushes the callee on the stack of
 * modules, opens the callee's protection key, closes the caller's key once it runs on the
 * callee's stack, and undoes both on the way back.
 */
module CallGates {

  /** prev_module has this many entries. */
  const LAYERS: int := 16

  /** Which modules share a cubicle, and each module's protection key through remap and pmap. */
  datatype Config = Config(flist: seq<int>, remap: seq<int>, pkey: seq<int>)

  predicate ModuleOk(c: Config, m: int) {
    0 <= m < |c.remap| && 0 <= c.remap[m] < |c.pkey| && c.pkey[c.remap[m]] != 0
  }

  function Key(c: Config, m: int): int
    requires ModuleOk(c, m)
  {
    c.pkey[c.remap[m]]
  }

  predicate AreFriends(c: Config, a: int, b: int) {
    a == b || (a in c.flist && b in c.flist)
  }

  /** A call and the calls that the called function makes, in order. */
  datatype Call = Call(callee: int, body: seq<Call>)

  /** How many layers a call takes when module top is on top of the stack: a friend's function takes none. */
  function Depth(c: Config, top: int, call: Call): nat
    decreases call
  {
    if AreFriends(c, top, call.callee) then DepthAll(c, top, call.body) else 1 + DepthAll(c, call.callee, call.body)
  }

  function DepthAll(c: Config, top: int, calls: seq<Call>): nat
    decreases calls
  {
    if calls == [] then 0 else
      var d, e := Depth(c, top, calls[0]), DepthAll(c, top, calls[1..]);
      if d < e then e else d
  }

  ghost predicate CallOk(c: Config, call: Call) {
    ModuleOk(c, call.callee) && AllOk(c, call.body)
  }

  ghost predicate AllOk(c: Config, calls: seq<Call>) {
    calls == [] || (CallOk(c, calls[0]) && AllOk(c, calls[1..]))
  }

  /** A moment of a run: code of some module runs, or the monitor is between two modules. */
  datatype Moment =
    | Running(m: int, stack: seq<int>, open: set<int>)
    | Switching(stack: seq<int>, open: set<int>)

  /** The moments of a call made with the given stack of modules and open keys, and the keys open afterwards. */
  ghost function Exec(c: Config, stack: seq<int>, open: set<int>, call: Call): (r: (seq<Moment>, set<int>))
    requires stack != [] && ModuleOk(c, stack[|stack| - 1]) && CallOk(c, call)
    decreases call
  {
    var caller := stack[|stack| - 1];
    if AreFriends(c, caller, call.callee) then ExecAll(c, stack, open, call.callee, call.body)
    else
      var stack' := stack + [call.callee];
      var both := open + {Key(c, call.callee)};
      var r := ExecAll(c, stack', both - {Key(c, caller)}, call.callee, call.body);
      var both' := r.1 + {Key(c, caller)};
      ([Switching(stack', both)] + r.0 + [Switching(stack', both')], both' - {Key(c, call.callee)})
  }

  /** The moments of the body of a function of module m. */
  ghost function ExecAll(c: Config, stack: seq<int>, open: set<int>, m: int, calls: seq<Call>): (r: (seq<Moment>,
                         set<int>))
    requires stack != [] && ModuleOk(c, stack[|stack| - 1]) && AllOk(c, calls)
    decreases calls
  {
    if calls == [] then ([Running(m, stack, open)], open)
    else
      var r := Exec(c, stack, open, calls[0]);
      var s := ExecAll(c, stack, r.1, m, calls[1..]);
      ([Running(m, stack, open)] + r.0 + s.0, s.1)
  }

  /** Whose code runs, in order, from the calls alone: m's, then for each call its own run followed by m's again. */
  ghost function Runs(m: int, calls: seq<Call>): seq<int>
    decreases calls
  {
    if calls == [] then [m] else [m] + Runs(calls[0].callee, calls[0].body) + Runs(m, calls[1..])
  }

  /** Whose code runs, in order, in a log. */
  ghost function Modules(ts: seq<Moment>): seq<int> {
    if ts == [] then [] else (if ts[0].Running? then [ts[0].m] else []) + Modules(ts[1..])
  }

  /** The moments of a call: a stranger's run stands between two switches, on a stack with the stranger on top. */
  ghost predicate CallTrace(c: Config, stack: seq<int>, call: Call, ts: seq<Moment>)
    requires stack != []
    decreases call
  {
    if AreFriends(c, stack[|stack| - 1], call.callee) then BodyTrace(c, stack, call.callee, call.body, ts)
    else
      var longer := stack + [call.callee];
      && 2 <= |ts| && ts[0].Switching? && ts[|ts| - 1].Switching?
      && ts[0].stack == longer == ts[|ts| - 1].stack
      && BodyTrace(c, longer, call.callee, call.body, ts[1..|ts| - 1])
  }

  /** The moments of a function of module m: it runs before, between and after its calls, always on its stack. */
  ghost predicate BodyTrace(c: Config, stack: seq<int>, m: int, calls: seq<Call>, ts: seq<Moment>)
    requires stack != []
    decreases calls
  {
    && ts != [] && ts[0].Running? && ts[0].m == m && ts[0].stack == stack
    && if calls == [] then |ts| == 1
       else exists k :: 1 <= k <= |ts| && CallTrace(c, stack, calls[0], ts[1..k])
                        && BodyTrace(c, stack, m, calls[1..], ts[k..])
  }

  lemma {:induction false} ModulesJoin(a: seq<Moment>, b: seq<Moment>)
    ensures Modules(a + b) == Modules(a) + Modules(b)
  {
    if a == [] {
      assert a + b == b;
    } else {
      assert (a + b)[1..] == a[1..] + b;
      ModulesJoin(a[1..], b);
    }
  }

  /** A call runs what the tree of calls says, switching exactly at the calls of strangers. */
  lemma {:induction false} ExecRuns(c: Config, stack: seq<int>, open: set<int>, call: Call)
    requires stack != [] && ModuleOk(c, stack[|stack| - 1]) && CallOk(c, call)
    ensures Modules(Exec(c, stack, open, call).0) == Runs(call.callee, call.body)
    ensures CallTrace(c, stack, call, Exec(c, stack, open, call).0)
    decreases call
  {
    var caller := stack[|stack| - 1];
    if AreFriends(c, caller, call.callee) {
      BodyRuns(c, stack, open, call.callee, call.body);
    } else {
      var stack' := stack + [call.callee];
      var both := open + {Key(c, call.callee)};
      var r := ExecAll(c, stack', both - {Key(c, caller)}, call.callee, call.body);
      BodyRuns(c, stack', both - {Key(c, caller)}, call.callee, call.body);
      var first, last := [Switching(stack', both)], [Switching(stack', r.1 + {Key(c, caller)})];
      ModulesJoin(first, r.0);
      ModulesJoin(first + r.0, last);
      assert (first + r.0 + last)[1..|r.0| + 1] == r.0;
    }
  }

  lemma {:induction false} BodyRuns(c: Config, stack: seq<int>, open: set<int>, m: int, calls: seq<Call>)
    requires stack != [] && ModuleOk(c, stack[|stack| - 1]) && AllOk(c, calls)
    ensures Modules(ExecAll(c, stack, open, m, calls).0) == Runs(m, calls)
    ensures BodyTrace(c, stack, m, calls, ExecAll(c, stack, open, m, calls).0)
    decreases calls
  {
    var ts, first := ExecAll(c, stack, open, m, calls).0, [Running(m, stack, open)];
    if calls == [] {
      assert ts == first && first[1..] == [];
    } else {
      var r := Exec(c, stack, open, calls[0]);
      var s := ExecAll(c, stack, r.1, m, calls[1..]);
      ExecRuns(c, stack, open, calls[0]);
      BodyRuns(c, stack, r.1, m, calls[1..]);
      ModulesJoin(first, r.0);
      ModulesJoin(first + r.0, s.0);
      var k := |r.0| + 1;
      assert ts[1..k] == r.0 && ts[k..] == s.0;
    }
  }

  /** Exactly the key of the running module is open; during a switch also the other module's. */
  ghost predicate MomentOk(c: Config, t: Moment) {
    match t
    case Running(m, stack, open) => ModuleOk(c, m) && open == {Key(c, m)}
    case Switching(stack, open) =>
      && 2 <= |stack| && ModuleOk(c, stack[|stack| - 1]) && ModuleOk(c, stack[|stack| - 2])
      && open == {Key(c, stack[|stack| - 1]), Key(c, stack[|stack| - 2])}
  }

  ghost predicate MomentsOk(c: Config, ts: seq<Moment>) {
    forall i :: 0 <= i < |ts| ==> MomentOk(c, ts[i])
  }

  /** Friends are the modules that share a key. */
  ghost predicate FriendsShareKeys(c: Config) {
    forall a, b :: ModuleOk(c, a) && ModuleOk(c, b) ==> (AreFriends(c, a, b) <==> Key(c, a) == Key(c, b))
  }

  lemma {:induction false} SafeCall(c: Config, stack: seq<int>, open: set<int>, call: Call)
    requires FriendsShareKeys(c) && stack != [] && ModuleOk(c, stack[|stack| - 1]) && CallOk(c, call)
    requires open == {Key(c, stack[|stack| - 1])}
    ensures Exec(c, stack, open, call).1 == open && MomentsOk(c, Exec(c, stack, open, call).0)
    decreases call
  {
    var caller := stack[|stack| - 1];
    if AreFriends(c, caller, call.callee) {
      SafeBody(c, stack, open, call.callee, call.body);
    } else {
      var stack' := stack + [call.callee];
      var both := open + {Key(c, call.callee)};
      assert both - {Key(c, caller)} == {Key(c, call.callee)};
      SafeBody(c, stack', both - {Key(c, caller)}, call.callee, call.body);
    }
  }

  lemma {:induction false} SafeBody(c: Config, stack: seq<int>, open: set<int>, m: int, calls: seq<Call>)
    requires FriendsShareKeys(c) && stack != [] && ModuleOk(c, stack[|stack| - 1]) && AllOk(c, calls)
    requires open == {Key(c, stack[|stack| - 1])} && ModuleOk(c, m) && Key(c, m) == Key(c, stack[|stack| - 1])
    ensures ExecAll(c, stack, open, m, calls).1 == open && MomentsOk(c, ExecAll(c, stack, open, m, calls).0)
    decreases calls
  {
    if calls != [] {
      SafeCall(c, stack, open, calls[0]);
      SafeBody(c, stack, open, m, calls[1..]);
    }
  }

  /**
   * The rule of one open key holds in all runs exactly when friendship and equality of
   * keys coincide.
   */
  lemma {:induction false} OneKeyExactlyWhen(c: Config)
    ensures FriendsShareKeys(c) <==>
            forall m, call {:trigger SafeFrom(c, m, call)} :: ModuleOk(c, m) && CallOk(c, call) ==> SafeFrom(c, m, call)
  {
    if FriendsShareKeys(c) {
      forall m, call | ModuleOk(c, m) && CallOk(c, call)
        ensures SafeFrom(c, m, call)
      {
        SafeCall(c, [m], {Key(c, m)}, call);
      }
    } else {
      var a, b :| ModuleOk(c, a) && ModuleOk(c, b) && (AreFriends(c, a, b) != (Key(c, a) == Key(c, b)));
      BadCall(c, a, b);
      assert !SafeFrom(c, a, Call(b, []));
    }
  }

  /** A call made by module m with only its own key open keeps the rule throughout. */
  ghost predicate SafeFrom(c: Config, m: int, call: Call)
    requires ModuleOk(c, m) && CallOk(c, call)
  {
    var r := Exec(c, [m], {Key(c, m)}, call);
    MomentsOk(c, r.0) && r.1 == {Key(c, m)}
  }

  /** A call that breaks the rule: of a stranger with the caller's key, or of a friend with another key. */
  lemma {:induction false} BadCall(c: Config, a: int, b: int)
    requires ModuleOk(c, a) && ModuleOk(c, b) && (AreFriends(c, a, b) != (Key(c, a) == Key(c, b)))
    ensures CallOk(c, Call(b, [])) && !MomentsOk(c, Exec(c, [a], {Key(c, a)}, Call(b, [])).0)
  {
    var open, call := {Key(c, a)}, Call(b, []);
    var ts := Exec(c, [a], open, call).0;
    assert call.body == [];
    if AreFriends(c, a, b) {
      assert ts == ExecAll(c, [a], open, b, []).0 == [Running(b, [a], open)];
      assert !MomentOk(c, ts[0]);
    } else {
      var none := open + {Key(c, b)} - {Key(c, a)};
      assert none == {};
      assert ExecAll(c, [a] + [b], none, b, []).0 == [Running(b, [a] + [b], none)];
      assert ts[1] == Running(b, [a] + [b], none);
      assert !MomentOk(c, ts[1]);
    }
  }

  /** friends: the list is empty in builds without merged cubicles. */
  method Friends(c: Config, a: int, b: int) returns (r: bool)
    ensures r <==> AreFriends(c, a, b)
  {
    if a == b {
      return true;
    }
    var aOk, bOk := false, false;
    for i := 0 to |c.flist|
      invariant aOk <==> a in c.flist[..i]
      invariant bOk <==> b in c.flist[..i]
      invariant !(aOk && bOk)
    {
      if !aOk && c.flist[i] == a {
        aOk := true;
      }
      if !bOk && c.flist[i] == b {
        bOk := true;
      }
      assert c.flist[..i + 1] == c.flist[..i] + [c.flist[i]];
      if aOk && bOk {
        return true;
      }
    }
    assert c.flist[..|c.flist|] == c.flist;
    r := false;
  }

  /**
   * Builds with merged cubicles give every friend the key of one of them; with keys
   * distinct to begin with, friendship and equality of keys then coincide.
   */
  lemma {:induction false} MergedKeys(flist: seq<int>, remap: seq<int>, base: seq<int>, pkey: seq<int>, rep: int)
    requires |pkey| == |base| && 0 !in base && 0 <= rep < |remap| && rep in flist
    requires forall m :: 0 <= m < |remap| ==> 0 <= remap[m] < |base|
    requires forall m, n :: 0 <= m < |remap| && 0 <= n < |remap| && m != n ==> base[remap[m]] != base[remap[n]]
    requires forall m :: 0 <= m < |remap| ==> pkey[remap[m]] == base[remap[if m in flist then rep else m]]
    ensures FriendsShareKeys(Config(flist, remap, pkey))
  {
    var c := Config(flist, remap, pkey);
    forall a, b | ModuleOk(c, a) && ModuleOk(c, b)
      ensures AreFriends(c, a, b) <==> Key(c, a) == Key(c, b)
    {
      var x, y := if a in flist then rep else a, if b in flist then rep else b;
      assert Key(c, a) == base[remap[x]] && Key(c, b) == base[remap[y]];
    }
  }

  lemma {:induction false} Appended(before: seq<Moment>, first: Moment, middle: seq<Moment>, last: Moment)
    ensures before + [first] + middle + [last] == before + ([first] + middle + [last])
  {
  }

  class Monitor {
    const cfg: Config
    var layer: int
    var prevModule: seq<int>
    var open: set<int>
    ghost var log: seq<Moment>

    ghost predicate Valid()
      reads this
    {
      && 0 <= layer < LAYERS == |prevModule|
      && (forall i :: 0 <= i <= layer ==> ModuleOk(cfg, prevModule[i]))
    }

    /** The modules called and not yet returned from, the first one at the bottom. */
    ghost function Stack(): seq<int>
      requires Valid()
      reads this
    {
      prevModule[..layer + 1]
    }

    /** Start as the loader does: one module at layer 0, all keys closed but its own. */
    constructor (c: Config, m: int)
      requires ModuleOk(c, m)
      ensures Valid() && cfg == c && Stack() == [m] && open == {Key(c, m)} && log == []
    {
      cfg := c;
      layer := 0;
      prevModule := seq(LAYERS, i => m);
      open := {Key(c, m)};
      log := [];
    }

    /** cmp_lock; the source spins if the module has no key. */
    method CmpLock(mid: int)
      requires 0 <= mid < |cfg.pkey| && cfg.pkey[mid] != 0
      modifies this`open
      ensures open == old(open) - {cfg.pkey[mid]}
    {
      open := open - {cfg.pkey[mid]};
    }

    /** cmp_unlock */
    method CmpUnlock(mid: int)
      requires 0 <= mid < |cfg.pkey|
      modifies this`open
      ensures open == old(open) + {cfg.pkey[mid]}
    {
      open := open + {cfg.pkey[mid]};
    }

    /** The generated gate for a function of module call.callee, and that function's own calls. */
    method Gate(call: Call)
      requires Valid() && CallOk(cfg, call) && layer + Depth(cfg, prevModule[layer], call) < LAYERS
      modifies this`layer, this`prevModule, this`open, this`log
      ensures Valid() && layer == old(layer) && Stack() == old(Stack())
      ensures var r := Exec(cfg, old(Stack()), old(open), call); log == old(log) + r.0 && open == r.1
      decreases call, 2
    {
      var isFriend := Friends(cfg, prevModule[layer], call.callee);
      if isFriend {
        Body(call.callee, call.body);
      } else {
        Cross(call);
      }
    }

    /** The part of the gate that changes cubicles. */
    method Cross(call: Call)
      requires Valid() && CallOk(cfg, call) && layer + Depth(cfg, prevModule[layer], call) < LAYERS
      requires !AreFriends(cfg, prevModule[layer], call.callee)
      modifies this`layer, this`prevModule, this`open, this`log
      ensures Valid() && layer == old(layer) && Stack() == old(Stack())
      ensures var r := Exec(cfg, old(Stack()), old(open), call); log == old(log) + r.0 && open == r.1
      decreases call, 1
    {
      ghost var stack, before := Stack(), log;
      layer := layer + 1;
      prevModule := prevModule[layer := call.callee];
      assert Stack() == stack + [call.callee];
      var callee := cfg.remap[prevModule[layer]];
      CmpUnlock(callee);
      ghost var first := Switching(Stack(), open);
      log := log + [first];
      ghost var r := ExecAll(cfg, Stack(), open - {Key(cfg, stack[layer - 1])}, call.callee, call.body);
      EntryPoint(call);
      ghost var last := Switching(Stack(), open);
      log := log + [last];
      Appended(before, first, r.0, last);
      CmpLock(callee);
      layer := layer - 1;
      assert Stack() == stack;
    }

    /** The coroutine's entry point: runs the function with the caller's key closed. */
    method EntryPoint(call: Call)
      requires Valid() && 0 < layer && CallOk(cfg, call) && prevModule[layer] == call.callee
      requires layer + DepthAll(cfg, call.callee, call.body) < LAYERS
      modifies this`layer, this`prevModule, this`open, this`log
      ensures Valid() && layer == old(layer) && Stack() == old(Stack())
      ensures var caller := Key(cfg, old(prevModule)[layer - 1]);
              var r := ExecAll(cfg, old(Stack()), old(open) - {caller}, call.callee, call.body);
              log == old(log) + r.0 && open == r.1 + {caller}
      decreases call, 0
    {
      var prev := cfg.remap[prevModule[layer - 1]];
      assert Stack()[layer - 1] == prevModule[layer - 1] && Stack()[layer] == prevModule[layer];
      CmpLock(prev);
      Body(call.callee, call.body);
      CmpUnlock(prev);
    }

    /** What a function of module m does: it runs, calls, and runs again. */
    method Body(m: int, calls: seq<Call>)
      requires Valid() && AllOk(cfg, calls) && layer + DepthAll(cfg, prevModule[layer], calls) < LAYERS
      modifies this`layer, this`prevModule, this`open, this`log
      ensures Valid() && layer == old(layer) && Stack() == old(Stack())
      ensures var r := ExecAll(cfg, old(Stack()), old(open), m, calls); log == old(log) + r.0 && open == r.1
      decreases calls
    {
      log := log + [Running(m, Stack(), open)];
      if calls != [] {
        Gate(calls[0]);
        Body(m, calls[1..]);
      }
    }

    /** A call through the gate: what it does to the monitor, whose code it runs, and where it switches. */
    method Hooked(call: Call)
      requires Valid() && CallOk(cfg, call) && layer + Depth(cfg, prevModule[layer], call) < LAYERS
      modifies this`layer, this`prevModule, this`open, this`log
      ensures Valid() && layer == old(layer) && Stack() == old(Stack())
      ensures var r := Exec(cfg, old(Stack()), old(open), call); log == old(log) + r.0 && open == r.1
      ensures old(log) <= log && Modules(log[|old(log)|..]) == Runs(call.callee, call.body)
      ensures CallTrace(cfg, old(Stack()), call, log[|old(log)|..])
      ensures FriendsShareKeys(cfg) && old(open) == {Key(cfg, prevModule[layer])} ==>
                MomentsOk(cfg, log[|old(log)|..]) && open == old(open)
    {
      ghost var stack, ts := Stack(), Exec(cfg, Stack(), open, call).0;
      ExecRuns(cfg, stack, open, call);
      if FriendsShareKeys(cfg) && open == {Key(cfg, prevModule[layer])} {
        SafeCall(cfg, stack, open, call);
      }
      Gate(call);
      assert log[|old(log)|..] == ts;
    }
  }
}
