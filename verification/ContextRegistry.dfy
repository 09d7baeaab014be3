/** The registry of run contexts: names mapped to contexts, a current context that need not be
    mapped any more, and an internal GPU context. Contexts are numbered as they are created. */
module ContextRegistry {
  import opened Options

  const DEFAULT := "default"

  /** The singleton and what became of every context so far; `overwritten` are the contexts whose
      name was given to a newer one. */
  datatype State = State(live: bool, contexts: map<string, nat>, current: nat, gpu: Option<nat>,
                         created: nat, deleted: multiset<nat>, overwritten: set<nat>)

  datatype Op = Touch | Create(name: string) | Select(name: string) | Delete(name: string) | UseGpu | Destroy

  const START := State(false, map[], 0, None, 0, multiset{}, {})

  // ---------- What each operation does ----------

  /** `GetInstance`. */
  function Ensured(s: State): State {
    if s.live then s else
    s.(live := true, contexts := map[DEFAULT := s.created], current := s.created, created := s.created + 1)
  }

  function Added(s: State, name: string): State {
    s.(contexts := s.contexts[name := s.created], created := s.created + 1,
       overwritten := if name in s.contexts then s.overwritten + {s.contexts[name]} else s.overwritten)
  }

  function Selected(s: State, name: string): State {
    if name in s.contexts then s.(current := s.contexts[name]) else s
  }

  /** `DeleteRunContext` throws on an unknown name, and on the current context when there is no
      default context to fall back to. */
  predicate DeleteThrows(s: State, name: string) {
    || name !in s.contexts
    || (s.current == s.contexts[name] && name != DEFAULT && DEFAULT !in s.contexts)
  }

  /** The default context is kept while it is the current one. */
  predicate DeleteRefused(s: State, name: string) {
    name == DEFAULT && DEFAULT in s.contexts && s.current == s.contexts[DEFAULT]
  }

  function Removed(s: State, name: string): State
    requires name in s.contexts
  {
    s.(contexts := s.contexts - {name}, deleted := s.deleted + multiset{s.contexts[name]})
  }

  function AfterDelete(s: State, name: string): State {
    if DeleteThrows(s, name) || DeleteRefused(s, name) then s
    else if s.current == s.contexts[name] then Removed(s.(current := s.contexts[DEFAULT]), name)
    else Removed(s, name)
  }

  function WithGpu(s: State): State {
    if s.gpu.Some? then s else s.(gpu := Some(s.created), created := s.created + 1)
  }

  /** What will be deleted once all that is mapped is. */
  function DeletedInAll(deleted: multiset<nat>, m: map<string, nat>): multiset<nat> {
    deleted + multiset(m.Values)
  }

  function Torn(s: State): State {
    if !s.live then s else
    var d := DeletedInAll(s.deleted, s.contexts);
    s.(live := false, contexts := map[], gpu := None,
       deleted := if s.gpu.Some? then d + multiset{s.gpu.value} else d)
  }

  /** The operations as the R adapters call them: all but `Destroy` make sure of the instance first. */
  function Step(s: State, op: Op): State {
    match op
    case Touch => Ensured(s)
    case Create(name) => Added(Ensured(s), name)
    case Select(name) => Selected(Ensured(s), name)
    case Delete(name) => AfterDelete(Ensured(s), name)
    case UseGpu => WithGpu(Ensured(s))
    case Destroy => Torn(s)
  }

  function Steps(s: State, ops: seq<Op>): State
    decreases |ops|
  {
    if ops == [] then s else Steps(Step(s, ops[0]), ops[1..])
  }

  // ---------- Operations one after the other ----------

  /** The first operation finds or makes one context, named default and current. */
  lemma StartsWithDefault()
    ensures Step(START, Touch).contexts == map["default" := 0] && Step(START, Touch).current == 0
  {
  }

  /** A new context is current only once it is selected, and takes no other name's place. */
  lemma CreateThenSelect(s: State, name: string)
    ensures var made := Step(s, Create(name));
            && name in made.contexts && made.contexts[name] >= s.created
            && made.current == Ensured(s).current
            && (forall other | other != name ::
                  (other in made.contexts <==> other in Ensured(s).contexts) &&
                  (other in made.contexts ==> made.contexts[other] == Ensured(s).contexts[other]))
            && Step(made, Select(name)) == made.(current := made.contexts[name])
  {
  }

  /** Selecting an unknown name selects nothing. */
  lemma SelectUnknown(s: State, name: string)
    requires s.live && name !in s.contexts
    ensures Step(s, Select(name)) == s
  {
  }

  /** Deleting the current context, if it is not the default one and there is a default one, makes
      that current. */
  lemma DeleteFallsBack(s: State, name: string)
    requires s.live && name in s.contexts && name != "default"
    requires "default" in s.contexts && s.current == s.contexts[name]
    ensures !DeleteThrows(s, name)
    ensures var t := Step(s, Delete(name));
            && t.current == s.contexts["default"] && t.contexts == s.contexts - {name}
            && t.deleted == s.deleted + multiset{s.contexts[name]}
  {
  }

  /** Deleting another context leaves the current one, and so does a delete that throws or is
      refused: of an unknown name, of the current context without a default, of the current default. */
  lemma DeleteElsewhere(s: State, name: string)
    requires s.live
    ensures name in s.contexts && s.current != s.contexts[name] ==>
              && !DeleteThrows(s, name)
              && Step(s, Delete(name)) == s.(contexts := s.contexts - {name},
                                             deleted := s.deleted + multiset{s.contexts[name]})
    ensures name !in s.contexts ==> DeleteThrows(s, name) && Step(s, Delete(name)) == s
    ensures name in s.contexts && s.current == s.contexts[name] && "default" !in s.contexts ==>
              DeleteThrows(s, name) && Step(s, Delete(name)) == s
    ensures "default" in s.contexts && s.current == s.contexts["default"] ==>
              !DeleteThrows(s, "default") && Step(s, Delete("default")) == s
  {
  }

  /** The GPU context is new when it is first asked for, the same afterwards, and no named one. */
  lemma GpuIsKept(s: State)
    ensures var t := Step(s, UseGpu);
            && t.gpu.Some? && (s.live && s.gpu.Some? ==> t.gpu == s.gpu)
            && (Ensured(s).gpu.None? ==> t.gpu.value >= s.created)
            && t.contexts == Ensured(s).contexts && t.current == Ensured(s).current
            && Step(t, UseGpu) == t
  {
  }

  /** After a destruction everything starts anew, with contexts that were never there before. */
  lemma RestartIsFresh(s: State)
    requires s.live
    ensures var t := Step(Step(s, Destroy), Touch);
            t.contexts == map["default" := s.created] && t.current == s.created && t.gpu == None && t.live
  {
  }

  // ---------- The invariant ----------

  predicate Injective(m: map<string, nat>) {
    forall a, b | a in m && b in m && m[a] == m[b] :: a == b
  }

  function GpuSet(s: State): set<nat> {
    if s.gpu.Some? then {s.gpu.value} else {}
  }

  /** Every context created is mapped to a name, or overwritten, or the GPU context, or deleted
      once, and only one of these; so their numbers add up. */
  ghost predicate Accounts(created: nat, deleted: multiset<nat>, mapped: set<nat>, overwritten: set<nat>,
                           gpu: set<nat>) {
    && (forall id: nat ::
          (if id in mapped then 1 else 0) + (if id in overwritten then 1 else 0) + (if id in gpu then 1 else 0)
          + deleted[id] == if id < created then 1 else 0)
    && created == |mapped| + |deleted| + |overwritten| + |gpu|
  }

  /** The current context of a live instance is mapped or overwritten. */
  ghost predicate Roles(s: State, mapped: set<nat>) {
    && Accounts(s.created, s.deleted, mapped, s.overwritten, GpuSet(s))
    && (s.live ==> s.current in mapped || s.current in s.overwritten)
  }

  ghost predicate Valid(s: State) {
    && Injective(s.contexts)
    && Roles(s, s.contexts.Values)
    && (!s.live ==> s.contexts == map[] && s.gpu == None)
  }

  lemma InjectiveAfterUpdate(m: map<string, nat>, k: string, v: nat)
    requires Injective(m) && v !in m.Values
    ensures Injective(m[k := v])
  {
    var t := m[k := v];
    forall a, b | a in t && b in t && t[a] == t[b] ensures a == b {
      if a != k { assert m[a] in m.Values; }
      if b != k { assert m[b] in m.Values; }
    }
  }

  lemma ValuesAfterUpdate(m: map<string, nat>, k: string, v: nat)
    requires Injective(m) && v !in m.Values
    ensures m[k := v].Values == (if k in m then m.Values - {m[k]} else m.Values) + {v}
  {
    var t := m[k := v];
    var kept := if k in m then m.Values - {m[k]} else m.Values;
    forall x | x in kept ensures x in t.Values {
      var a :| a in m && m[a] == x;
      assert t[a] == x;
    }
    forall x | x in t.Values && x != v ensures x in kept {
      var a :| a in t && t[a] == x;
      assert a in m && m[a] == x;
    }
    assert t[k] == v;
  }

  lemma ValuesAfterRemoval(m: map<string, nat>, k: string)
    requires Injective(m) && k in m
    ensures Injective(m - {k}) && (m - {k}).Values == m.Values - {m[k]} && |m - {k}| == |m| - 1
  {
    var t := m - {k};
    forall x | x in m.Values && x != m[k] ensures x in t.Values {
      var a :| a in m && m[a] == x;
      assert t[a] == x;
    }
    assert t.Keys == m.Keys - {k};
  }

  lemma {:induction false} AsManyValuesAsNames(m: map<string, nat>)
    requires Injective(m)
    ensures |m.Values| == |m|
    decreases |m|
  {
    hide Injective;
    if m == map[] {
      assert m.Values == {};
    } else {
      var k :| k in m;
      ValuesAfterRemoval(m, k);
      AsManyValuesAsNames(m - {k});
      assert m[k] in m.Values;
    }
  }

  lemma SizeWith(s: set<nat>, x: nat)
    requires x !in s
    ensures |s + {x}| == |s| + 1
  {
  }

  lemma SizeWithout(s: set<nat>, x: nat)
    requires x in s
    ensures |s - {x}| == |s| - 1
  {
  }

  lemma CreateAccounts(n: nat, d: multiset<nat>, mapped: set<nat>, over: set<nat>, gpu: set<nat>)
    requires Accounts(n, d, mapped, over, gpu)
    ensures n !in mapped && n !in over && n !in gpu
    ensures Accounts(n + 1, d, mapped + {n}, over, gpu)
    ensures Accounts(n + 1, d, mapped, over, gpu + {n})
  {
    assert n !in mapped && n !in gpu && d[n] == 0;
    SizeWith(mapped, n);
    SizeWith(gpu, n);
  }

  lemma OverwriteAccounts(n: nat, d: multiset<nat>, mapped: set<nat>, over: set<nat>, gpu: set<nat>, id: nat)
    requires Accounts(n, d, mapped, over, gpu) && id in mapped
    ensures Accounts(n, d, mapped - {id}, over + {id}, gpu)
  {
    SizeWithout(mapped, id);
    SizeWith(over, id);
  }

  lemma ReplaceAccounts(n: nat, d: multiset<nat>, mapped: set<nat>, over: set<nat>, gpu: set<nat>, id: nat)
    requires Accounts(n, d, mapped, over, gpu) && id in mapped
    ensures Accounts(n + 1, d, mapped - {id} + {n}, over + {id}, gpu)
  {
    hide Accounts;
    OverwriteAccounts(n, d, mapped, over, gpu, id);
    CreateAccounts(n, d, mapped - {id}, over + {id}, gpu);
  }

  lemma DeleteAccounts(n: nat, d: multiset<nat>, mapped: set<nat>, over: set<nat>, gpu: set<nat>, id: nat)
    requires Accounts(n, d, mapped, over, gpu) && id in mapped
    ensures Accounts(n, d + multiset{id}, mapped - {id}, over, gpu)
  {
    SizeWithout(mapped, id);
  }

  lemma TearAccounts(n: nat, d: multiset<nat>, mapped: set<nat>, over: set<nat>, gpu: set<nat>)
    requires Accounts(n, d, mapped, over, gpu)
    ensures Accounts(n, d + multiset(mapped) + multiset(gpu), {}, over, {})
  {
  }

  lemma EnsuredRoles(s: State)
    requires Roles(s, {}) && !s.live && s.gpu == None
    ensures Roles(Ensured(s), {s.created})
  {
    hide Accounts;
    CreateAccounts(s.created, s.deleted, {}, s.overwritten, {});
    assert {} + {s.created} == {s.created};
  }

  lemma EnsuredIsValid(s: State)
    requires Valid(s)
    ensures Valid(Ensured(s)) && Ensured(s).live
  {
    hide Roles;
    if !s.live {
      assert s.contexts.Values == {};
      EnsuredRoles(s);
      var t := Ensured(s);
      assert t.contexts[DEFAULT] == s.created;
      assert t.contexts.Values == {s.created};
    }
  }

  lemma AddedRoles(s: State, name: string, mapped: set<nat>)
    requires Roles(s, mapped) && s.live && (name in s.contexts ==> s.contexts[name] in mapped)
    ensures s.created !in mapped
    ensures Roles(Added(s, name), (if name in s.contexts then mapped - {s.contexts[name]} else mapped) + {s.created})
  {
    hide Accounts;
    CreateAccounts(s.created, s.deleted, mapped, s.overwritten, GpuSet(s));
    if name in s.contexts {
      ReplaceAccounts(s.created, s.deleted, mapped, s.overwritten, GpuSet(s), s.contexts[name]);
    }
  }

  lemma AddedIsValid(s: State, name: string)
    requires Valid(s) && s.live
    ensures Valid(Added(s, name))
  {
    hide Roles, Injective;
    if name in s.contexts { assert s.contexts[name] in s.contexts.Values; }
    AddedRoles(s, name, s.contexts.Values);
    InjectiveAfterUpdate(s.contexts, name, s.created);
    ValuesAfterUpdate(s.contexts, name, s.created);
  }

  lemma RemovedIsValid(s: State, name: string)
    requires Valid(s) && name in s.contexts && s.current != s.contexts[name]
    ensures Valid(Removed(s, name))
  {
    hide Accounts, Injective;
    ValuesAfterRemoval(s.contexts, name);
    assert s.contexts[name] in s.contexts.Values;
    DeleteAccounts(s.created, s.deleted, s.contexts.Values, s.overwritten, GpuSet(s), s.contexts[name]);
  }

  lemma DeletedIsValid(s: State, name: string)
    requires Valid(s) && s.live
    ensures Valid(AfterDelete(s, name))
  {
    hide Accounts;
    if !DeleteThrows(s, name) && !DeleteRefused(s, name) {
      if s.current == s.contexts[name] {
        assert s.contexts[DEFAULT] in s.contexts.Values;
        RemovedIsValid(s.(current := s.contexts[DEFAULT]), name);
      } else {
        RemovedIsValid(s, name);
      }
    }
  }

  lemma WithGpuIsValid(s: State)
    requires Valid(s) && s.live
    ensures Valid(WithGpu(s))
  {
    hide Accounts, Injective;
    if s.gpu.None? {
      CreateAccounts(s.created, s.deleted, s.contexts.Values, s.overwritten, {});
      assert {} + {s.created} == GpuSet(WithGpu(s));
    }
  }

  lemma TornIsValid(s: State)
    requires Valid(s)
    ensures Valid(Torn(s))
  {
    hide Accounts;
    if s.live {
      TearAccounts(s.created, s.deleted, s.contexts.Values, s.overwritten, GpuSet(s));
      assert Torn(s).contexts.Values == {};
      assert Torn(s).deleted == s.deleted + multiset(s.contexts.Values) + multiset(GpuSet(s));
    }
  }

  lemma StepIsValid(s: State, op: Op)
    requires Valid(s)
    ensures Valid(Step(s, op))
  {
    hide Accounts, Injective, Ensured;
    EnsuredIsValid(s);
    var t := Ensured(s);
    match op
    case Touch =>
    case Create(name) => AddedIsValid(t, name);
    case Select(name) => if name in t.contexts { assert t.contexts[name] in t.contexts.Values; }
    case Delete(name) => DeletedIsValid(t, name);
    case UseGpu => WithGpuIsValid(t);
    case Destroy => TornIsValid(s);
  }

  lemma {:induction false} RunIsValid(s: State, ops: seq<Op>)
    requires Valid(s)
    ensures Valid(Steps(s, ops))
    decreases |ops|
  {
    hide Valid, Step;
    if ops != [] {
      StepIsValid(s, ops[0]);
      RunIsValid(Step(s, ops[0]), ops[1..]);
    }
  }

  /** After any sequence of operations the current context of a live instance has not been deleted,
      distinct names have distinct contexts that have not been deleted either, no context was
      deleted twice, and every context created is accounted for. */
  lemma RegistrySafety(ops: seq<Op>)
    ensures var s := Steps(START, ops);
            && (s.live ==> s.current < s.created && s.current !in s.deleted)
            && (forall a | a in s.contexts :: s.contexts[a] < s.created && s.contexts[a] !in s.deleted)
            && (forall a, b | a in s.contexts && b in s.contexts && a != b :: s.contexts[a] != s.contexts[b])
            && (forall id: nat :: s.deleted[id] <= 1)
            && s.created == |s.contexts| + |s.deleted| + |s.overwritten| + |GpuSet(s)|
  {
    assert START.contexts.Values == {};
    RunIsValid(START, ops);
    var s := Steps(START, ops);
    AsManyValuesAsNames(s.contexts);
    forall a | a in s.contexts ensures s.contexts[a] < s.created && s.contexts[a] !in s.deleted {
      assert s.contexts[a] in s.contexts.Values;
    }
  }

  /** Once the instance is destroyed, what has leaked is exactly what was overwritten. */
  lemma DestructionLeaksTheOverwritten(ops: seq<Op>)
    ensures var s := Steps(START, ops + [Destroy]);
            && !s.live
            && (forall id: nat | id < s.created :: id !in s.deleted <==> id in s.overwritten)
  {
    assert START.contexts.Values == {};
    RunIsValid(START, ops);
    StepIsValid(Steps(START, ops), Destroy);
    StepsSnoc(START, ops, Destroy);
    assert Steps(START, ops + [Destroy]).contexts.Values == {};
  }

  lemma {:induction false} StepsSnoc(s: State, ops: seq<Op>, op: Op)
    ensures Steps(s, ops + [op]) == Step(Steps(s, ops), op)
    decreases |ops|
  {
    if ops == [] {
      assert ops + [op] == [op] && [op][1..] == [];
    } else {
      assert (ops + [op])[0] == ops[0] && (ops + [op])[1..] == ops[1..] + [op];
      StepsSnoc(Step(s, ops[0]), ops[1..], op);
    }
  }

  /** Nothing leaks exactly when no context was created under a name in use. */
  predicate Overwrites(s: State, ops: seq<Op>)
    decreases |ops|
  {
    ops != [] && ((ops[0].Create? && ops[0].name in Ensured(s).contexts) || Overwrites(Step(s, ops[0]), ops[1..]))
  }

  lemma {:induction false} OverwrittenByCreation(s: State, ops: seq<Op>)
    ensures s.overwritten <= Steps(s, ops).overwritten
    ensures Steps(s, ops).overwritten == {} <==> s.overwritten == {} && !Overwrites(s, ops)
    decreases |ops|
  {
    if ops != [] {
      var t := Step(s, ops[0]);
      OverwrittenByCreation(t, ops[1..]);
      if ops[0].Create? && ops[0].name in Ensured(s).contexts {
        assert Ensured(s).contexts[ops[0].name] in t.overwritten;
      }
    }
  }

  lemma NothingLeaksIff(ops: seq<Op>)
    ensures var s := Steps(START, ops + [Destroy]);
            (forall id: nat | id < s.created :: id in s.deleted) <==> !Overwrites(START, ops)
  {
    DestructionLeaksTheOverwritten(ops);
    OverwrittenByCreation(START, ops);
    StepsSnoc(START, ops, Destroy);
    assert START.contexts.Values == {};
    RunIsValid(START, ops + [Destroy]);
    var s := Steps(START, ops + [Destroy]);
    if id: nat :| id in s.overwritten { assert id < s.created; }
  }

  /** The default context can be deleted while another is current; after that the current one can
      not be deleted any more. */
  lemma DefaultCanGo()
    ensures var s := Steps(START, [Create("gpu"), Select("gpu"), Delete(DEFAULT)]);
            && DEFAULT !in s.contexts
            && "gpu" in s.contexts && s.current == s.contexts["gpu"] && DeleteThrows(s, "gpu")
  {
    var a := Step(START, Create("gpu"));
    var b := Step(a, Select("gpu"));
    var c := Step(b, Delete(DEFAULT));
    var ops := [Create("gpu"), Select("gpu"), Delete(DEFAULT)];
    assert a.contexts == map[DEFAULT := 0, "gpu" := 1];
    assert b == a.(current := 1);
    assert c.contexts == map["gpu" := 1] && c.current == 1;
    assert ops[1..] == [Select("gpu"), Delete(DEFAULT)] && ops[1..][1..] == [Delete(DEFAULT)];
    assert Steps(b, [Delete(DEFAULT)]) == Steps(c, []);
    assert Steps(a, ops[1..]) == Steps(b, [Delete(DEFAULT)]);
  }

  lemma TearStep(m: map<string, nat>, name: string, deleted: multiset<nat>)
    requires Injective(m) && name in m
    ensures Injective(m - {name}) && |m - {name}| < |m|
    ensures DeletedInAll(deleted + multiset{m[name]}, m - {name}) == DeletedInAll(deleted, m)
  {
    ValuesAfterRemoval(m, name);
    assert m[name] in m.Values;
  }

  lemma TearEnd(deleted: multiset<nat>)
    ensures DeletedInAll(deleted, map[]) == deleted
  {
    var none: map<string, nat> := map[];
    assert none.Values == {};
  }

  // ---------- The object ----------

  /** The class with its static instance pointer; deleting a context is counting it. */
  class ContextManager {
    var live: bool
    var contexts: map<string, nat>
    var current: nat
    var gpu: Option<nat>
    var created: nat
    var deleted: multiset<nat>
    var overwritten: set<nat>

    ghost function Fields(): State
      reads this
    {
      State(live, contexts, current, gpu, created, deleted, overwritten)
    }

    constructor ()
      ensures Fields() == START
    {
      live, contexts, current, gpu := false, map[], 0, None;
      created, deleted, overwritten := 0, multiset{}, {};
    }

    method NewContext() returns (id: nat)
      modifies this`created
      ensures id == old(created) && created == old(created) + 1
    {
      id := created;
      created := created + 1;
    }

    method GetInstance()
      modifies this
      ensures Fields() == Ensured(old(Fields()))
    {
      if !live {
        live := true;
        var id := NewContext();
        contexts := map[DEFAULT := id];
        current := contexts[DEFAULT];
      }
    }

    /** None is the exception. */
    method GetContext(name: string) returns (r: Option<nat>)
      ensures r == if name in contexts then Some(contexts[name]) else None
    {
      r := if name in contexts then Some(contexts[name]) else None;
    }

    method CreateRunContext(name: string) returns (id: nat)
      modifies this
      ensures Fields() == Added(Ensured(old(Fields())), name)
      ensures id == contexts[name] && id >= old(created)
      ensures forall other | other in old(contexts) && old(live) && other != name ::
                other in contexts && contexts[other] == old(contexts)[other]
    {
      GetInstance();
      id := NewContext();
      if name in contexts { overwritten := overwritten + {contexts[name]}; }
      contexts := contexts[name := id];
    }

    method SetOperationContext(name: string) returns (ok: bool)
      modifies this
      ensures Fields() == Selected(Ensured(old(Fields())), name)
      ensures ok <==> name in contexts
      ensures ok ==> current == contexts[name]
    {
      GetInstance();
      var context := GetContext(name);
      if context.None? { return false; }
      current := context.value;
      return true;
    }

    /** On a live instance. A delete that throws changes nothing; one that returns leaves every
        other name alone and never leaves the current context deleted. */
    method DeleteRunContext(name: string) returns (ok: bool)
      requires live
      modifies this
      ensures Fields() == AfterDelete(old(Fields()), name)
      ensures ok <==> !DeleteThrows(old(Fields()), name)
      ensures !ok ==> Fields() == old(Fields())
      ensures ok && !DeleteRefused(old(Fields()), name) ==>
                contexts == old(contexts) - {name} && deleted == old(deleted) + multiset{old(contexts)[name]}
      ensures old(Valid(Fields())) ==> current !in deleted
    {
      hide Valid;
      ghost var before := Fields();
      CurrentIsNotDeleted(before, name);
      var context := GetContext(name);
      if context.None? { return false; }
      if current == context.value {
        if name == DEFAULT { return true; }
        var fallback := GetContext(DEFAULT);
        if fallback.None? { return false; }
        current := fallback.value;
      }
      contexts := contexts - {name};
      deleted := deleted + multiset{context.value};
      return true;
    }

    method GetGPUContext() returns (id: nat)
      modifies this
      ensures Fields() == WithGpu(Ensured(old(Fields()))) && gpu == Some(id)
    {
      GetInstance();
      if gpu.None? {
        id := NewContext();
        gpu := Some(id);
      }
      id := gpu.value;
    }

    /** On a registry that never maps two names to one context, which is what `Valid` keeps. */
    method DestroyInstance()
      requires Injective(contexts)
      modifies this
      ensures Fields() == Torn(old(Fields()))
    {
      hide Injective, DeletedInAll;
      ghost var total := DeletedInAll(deleted, contexts);
      if live {
        while contexts != map[]
          invariant Injective(contexts) && live
          invariant DeletedInAll(deleted, contexts) == total
          invariant unchanged(`current) && unchanged(`gpu) && unchanged(`created) && unchanged(`overwritten)
          decreases |contexts|
        {
          var name :| name in contexts;
          TearStep(contexts, name, deleted);
          deleted := deleted + multiset{contexts[name]};
          contexts := contexts - {name};
        }
        TearEnd(deleted);
        if gpu.Some? { deleted := deleted + multiset{gpu.value}; }
        gpu := None;
        live := false;
      }
    }
  }

  lemma CurrentIsNotDeleted(s: State, name: string)
    requires s.live
    ensures Valid(s) ==> AfterDelete(s, name).current !in AfterDelete(s, name).deleted
  {
    if Valid(s) && !DeleteThrows(s, name) && !DeleteRefused(s, name) {
      assert s.contexts[name] in s.contexts.Values;
      if s.current == s.contexts[name] {
        assert s.contexts[DEFAULT] in s.contexts.Values;
      }
    }
  }
}
