/**
 * Custom routing: the configuration graph, the depth-first builder that turns it into routers, and the
 * separate recursion that asks whether providing goes through HTTP.
 */
module Routers {
  import opened Wrappers

  // Configuration

  datatype Kind = Parallel | Sequential

  datatype ConfigRouter = ConfigRouter(name: string, timeout: int, ignoreErrors: bool, executeAfter: Option<int>)

  /** A router entry. Decoding a config picks the parameters by type, so the two always match. */
  datatype Router =
    | Http(endpoint: string)
    | Dht(mode: string, accelerated: bool, publicNetwork: bool)
    | Composable(kind: Kind, children: seq<ConfigRouter>)
    | UnknownType(typ: string)

  type Config = map<string, Router>

  /** Whether the HTTP and DHT libraries manage to construct a leaf. */
  datatype Libraries = Libraries(http: string -> bool, dht: (string, bool, bool) -> bool)

  predicate LeafBuilds(libs: Libraries, r: Router) {
    match r
    case Http(endpoint) => endpoint != "" && libs.http(endpoint)
    case Dht(mode, accelerated, public) =>
      (accelerated || mode in ["auto", "client", "server"]) && libs.dht(mode, accelerated, public)
    case Composable(_, _) => true
    case UnknownType(_) => false
  }

  // Routers

  datatype Kid = Kid(router: Built, ignoreError: bool, doNotWait: bool, timeout: int, executeAfter: int)

  datatype Built =
    | HttpLeaf(endpoint: string)
    | DhtLeaf(mode: string, accelerated: bool, publicNetwork: bool)
    | Node(kind: Kind, kids: seq<Kid>)

  /** Only parallel children carry a delay and skip waiting for searched values. */
  function MakeKid(kind: Kind, c: ConfigRouter, router: Built): Kid {
    match kind
    case Parallel =>
      Kid(router, c.ignoreErrors, true, c.timeout, if c.executeAfter.Some? then c.executeAfter.value else 0)
    case Sequential =>
      Kid(router, c.ignoreErrors, false, c.timeout, 0)
  }

  function MakeKids(kind: Kind, children: seq<ConfigRouter>, routers: seq<Built>): (kids: seq<Kid>)
    requires |children| == |routers|
  {
    seq(|children|, i requires 0 <= i < |children| => MakeKid(kind, children[i], routers[i]))
  }

  function Height(t: Built): nat
    decreases t
  {
    if t.Node? then 1 + MaxHeight(t, |t.kids|) else 0
  }

  /** The greatest height among the first `n` kids. */
  function MaxHeight(t: Built, n: nat): (h: nat)
    requires t.Node? && n <= |t.kids|
    ensures forall i :: 0 <= i < n ==> Height(t.kids[i].router) <= h
    decreases t, n
  {
    if n == 0 then 0
    else
      var last, rest := Height(t.kids[n - 1].router), MaxHeight(t, n - 1);
      if last > rest then last else rest
  }

  predicate HasHttp(t: Built)
    decreases t
  {
    match t
    case HttpLeaf(_) => true
    case DhtLeaf(_, _, _) => false
    case Node(_, kids) => exists i :: 0 <= i < |kids| && HasHttp(kids[i].router)
  }

  // The configuration graph

  ghost predicate StepAt(cfg: Config, p: seq<string>, i: nat)
    requires i + 1 < |p|
  {
    && p[i] in cfg && cfg[p[i]].Composable?
    && exists j :: 0 <= j < |cfg[p[i]].children| && cfg[p[i]].children[j].name == p[i + 1]
  }

  ghost predicate IsPath(cfg: Config, p: seq<string>) {
    && |p| > 0
    && forall i :: 0 <= i < |p| - 1 ==> StepAt(cfg, p, i)
  }

  ghost predicate PathTo(cfg: Config, a: string, b: string, p: seq<string>) {
    IsPath(cfg, p) && p[0] == a && p[|p| - 1] == b
  }

  ghost predicate Reaches(cfg: Config, a: string, b: string) {
    exists p :: PathTo(cfg, a, b, p)
  }

  ghost predicate OnCycle(cfg: Config, a: string) {
    exists p :: PathTo(cfg, a, a, p) && |p| > 1
  }

  /** Everything reachable is defined, of a known type, constructible and on no dependency loop. */
  ghost predicate Buildable(cfg: Config, libs: Libraries, name: string) {
    forall x :: Reaches(cfg, name, x) ==> x in cfg && LeafBuilds(libs, cfg[x]) && !OnCycle(cfg, x)
  }

  /** The router that a name denotes: its config unfolded to an ordered tree, each child as configured. */
  ghost predicate IsUnfolding(cfg: Config, name: string, t: Built)
    decreases t
  {
    && name in cfg
    && match t
       case HttpLeaf(endpoint) => cfg[name] == Http(endpoint)
       case DhtLeaf(mode, accelerated, public) => cfg[name] == Dht(mode, accelerated, public)
       case Node(kind, kids) =>
         && cfg[name].Composable? && cfg[name].kind == kind
         && |kids| == |cfg[name].children|
         && forall i :: 0 <= i < |kids| ==>
              && kids[i].ignoreError == cfg[name].children[i].ignoreErrors
              && kids[i].timeout == cfg[name].children[i].timeout
              && kids[i].doNotWait == kind.Parallel?
              && (kind.Parallel? && cfg[name].children[i].executeAfter.Some?
                  ==> kids[i].executeAfter == cfg[name].children[i].executeAfter.value)
              && (kind.Sequential? || cfg[name].children[i].executeAfter.None? ==> kids[i].executeAfter == 0)
              && IsUnfolding(cfg, cfg[name].children[i].name, kids[i].router)
  }

  lemma {:induction false} UnfoldingUnique(cfg: Config, name: string, t: Built, u: Built)
    requires IsUnfolding(cfg, name, t) && IsUnfolding(cfg, name, u)
    ensures t == u
    decreases t
  {
    if !t.Node? {
    } else {
      forall i | 0 <= i < |t.kids|
        ensures t.kids[i] == u.kids[i]
      {
        UnfoldingUnique(cfg, cfg[name].children[i].name, t.kids[i].router, u.kids[i].router);
      }
      assert t.kids == u.kids;
    }
  }

  // Paths

  lemma PathExtends(cfg: Config, p: seq<string>, c: string)
    requires IsPath(cfg, p)
    requires var last := p[|p| - 1];
             && last in cfg && cfg[last].Composable?
             && exists j :: 0 <= j < |cfg[last].children| && cfg[last].children[j].name == c
    ensures IsPath(cfg, p + [c])
  {
    var q := p + [c];
    forall i | 0 <= i < |q| - 1
      ensures StepAt(cfg, q, i)
    {
      assert i < |p| - 1 ==> StepAt(cfg, p, i);
    }
  }

  lemma SubPath(cfg: Config, p: seq<string>, i: nat, j: nat)
    requires IsPath(cfg, p) && i <= j < |p|
    ensures PathTo(cfg, p[i], p[j], p[i..j + 1])
  {
    var q := p[i..j + 1];
    forall k | 0 <= k < |q| - 1
      ensures StepAt(cfg, q, k)
    {
      assert StepAt(cfg, p, i + k);
    }
  }

  // Failures

  datatype Failure = Loop(name: string) | Missing(name: string) | BadType(name: string) | LeafFailed(name: string)

  /** A failure tells the truth about a name that `root` depends on. */
  ghost predicate Explains(cfg: Config, libs: Libraries, root: string, f: Failure) {
    && Reaches(cfg, root, f.name)
    && match f
       case Loop(n) => OnCycle(cfg, n)
       case Missing(n) => n !in cfg
       case BadType(n) => n in cfg && cfg[n].UnknownType?
       case LeafFailed(n) => n in cfg && (cfg[n].Http? || cfg[n].Dht?) && !LeafBuilds(libs, cfg[n])
  }

  lemma ExplainedNotBuildable(cfg: Config, libs: Libraries, root: string, f: Failure)
    requires Explains(cfg, libs, root, f)
    ensures !Buildable(cfg, libs, root)
  {
  }

  // The memo map

  /** Every memoised router was composed from the memoised routers of its children. */
  ghost predicate NodeOf(cfg: Config, libs: Libraries, created: map<string, Built>, n: string)
    requires n in created
  {
    && n in cfg && LeafBuilds(libs, cfg[n])
    && match cfg[n]
       case Http(endpoint) => created[n] == HttpLeaf(endpoint)
       case Dht(mode, accelerated, public) => created[n] == DhtLeaf(mode, accelerated, public)
       case UnknownType(_) => false
       case Composable(kind, children) =>
         && created[n].Node? && created[n].kind == kind && |created[n].kids| == |children|
         && forall i :: 0 <= i < |children| ==>
              children[i].name in created && created[n].kids[i] == MakeKid(kind, children[i], created[children[i].name])
  }

  ghost predicate Coherent(cfg: Config, libs: Libraries, created: map<string, Built>) {
    forall n :: n in created ==> NodeOf(cfg, libs, created, n)
  }

  lemma {:induction false} CoherentUnfolds(cfg: Config, libs: Libraries, created: map<string, Built>, n: string)
    requires Coherent(cfg, libs, created) && n in created
    ensures IsUnfolding(cfg, n, created[n])
    decreases created[n]
  {
    assert NodeOf(cfg, libs, created, n);
    if !cfg[n].Composable? {
    } else {
      forall i | 0 <= i < |cfg[n].children|
        ensures IsUnfolding(cfg, cfg[n].children[i].name, created[n].kids[i].router)
      {
        CoherentUnfolds(cfg, libs, created, cfg[n].children[i].name);
      }
    }
  }

  /** Along a path, memoised routers only get shorter. */
  lemma {:induction false} PathDescends(cfg: Config, libs: Libraries, created: map<string, Built>,
                                        p: seq<string>, i: nat)
    requires Coherent(cfg, libs, created) && IsPath(cfg, p) && p[0] in created && i < |p|
    ensures p[i] in created && (i > 0 ==> Height(created[p[i]]) < Height(created[p[0]]))
  {
    if i == 0 {
    } else {
      PathDescends(cfg, libs, created, p, i - 1);
      assert NodeOf(cfg, libs, created, p[i - 1]);
      assert StepAt(cfg, p, i - 1);
    }
  }

  lemma CoherentBuildable(cfg: Config, libs: Libraries, created: map<string, Built>, n: string)
    requires Coherent(cfg, libs, created) && n in created
    ensures Buildable(cfg, libs, n)
    ensures forall x :: Reaches(cfg, n, x) ==> x in created
  {
    forall x | Reaches(cfg, n, x)
      ensures x in created && x in cfg && LeafBuilds(libs, cfg[x]) && !OnCycle(cfg, x)
    {
      var p :| PathTo(cfg, n, x, p);
      PathDescends(cfg, libs, created, p, |p| - 1);
      assert NodeOf(cfg, libs, created, x);
      if OnCycle(cfg, x) {
        var c :| PathTo(cfg, x, x, c) && |c| > 1;
        PathDescends(cfg, libs, created, c, |c| - 1);
        assert false;
      }
    }
  }

  // Building

  function Names(stack: seq<string>): set<string> {
    set n | n in stack
  }

  /** No name is built twice. */
  ghost predicate Distinct(s: seq<string>) {
    forall i, j :: 0 <= i < j < |s| ==> s[i] != s[j]
  }

  ghost predicate Extends(created: map<string, Built>, before: map<string, Built>) {
    forall n :: n in before ==> n in created && created[n] == before[n]
  }

  const METHOD_NAMES: seq<string> := ["provide", "find-peers", "find-providers", "get-ipns", "put-ipns"]

  datatype Composer = Composer(
    getValue: Built, putValue: Built, findPeers: Built, findProviders: Built, provide: Built) {
    /** The router that serves a method. */
    function For(m: string): Built
      requires m in Names(METHOD_NAMES)
    {
      if m == "put-ipns" then putValue
      else if m == "get-ipns" then getValue
      else if m == "find-peers" then findPeers
      else if m == "find-providers" then findProviders
      else provide
    }
  }

  /** Hands each method's router to the composer field that serves the method. */
  function Compose(routers: map<string, Built>): (c: Composer)
    requires routers.Keys == Names(METHOD_NAMES)
    ensures forall m :: m in routers ==> c.For(m) == routers[m]
  {
    assert forall i :: 0 <= i < |METHOD_NAMES| ==> METHOD_NAMES[i] in routers;
    assert METHOD_NAMES[0] == "provide" && METHOD_NAMES[1] == "find-peers" && METHOD_NAMES[2] == "find-providers";
    assert METHOD_NAMES[3] == "get-ipns" && METHOD_NAMES[4] == "put-ipns";
    Composer(routers["get-ipns"], routers["put-ipns"], routers["find-peers"], routers["find-providers"],
             routers["provide"])
  }

  datatype MethodFault = MissingMethod(name: string) | Unsupported(name: string) {
    predicate Explains(methods: map<string, string>) {
      match this
      case MissingMethod(n) => n in METHOD_NAMES && n !in methods
      case Unsupported(n) => n in methods && n !in METHOD_NAMES
    }
  }

  datatype ParseFailure = BadMethods(check: MethodFault) | BadRouter(failure: Failure)

  /** Accepts exactly the five supported method names. */
  method CheckMethods(methods: map<string, string>) returns (bad: Option<MethodFault>)
    ensures bad.None? <==> methods.Keys == Names(METHOD_NAMES)
    ensures bad.Some? ==> bad.value.Explains(methods)
  {
    for i := 0 to |METHOD_NAMES|
      invariant forall j :: 0 <= j < i ==> METHOD_NAMES[j] in methods
    {
      if METHOD_NAMES[i] !in methods {
        assert METHOD_NAMES[i] in Names(METHOD_NAMES);
        return Some(MissingMethod(METHOD_NAMES[i]));
      }
    }
    var todo := methods.Keys;
    while todo != {}
      invariant todo <= methods.Keys
      invariant forall k :: k in methods && k !in todo ==> k in METHOD_NAMES
    {
      var k :| k in todo;
      var seen := false;
      for j := 0 to |METHOD_NAMES|
        invariant seen <==> k in METHOD_NAMES[..j]
      {
        if METHOD_NAMES[j] == k {
          seen := true;
        }
      }
      assert METHOD_NAMES[..|METHOD_NAMES|] == METHOD_NAMES;
      if !seen {
        assert k !in Names(METHOD_NAMES);
        return Some(Unsupported(k));
      }
      todo := todo - {k};
    }
    bad := None;
  }

  class Builder {
    const cfg: Config
    const libs: Libraries
    /** Names met while building for the current method; never cleared during it. */
    var visited: set<string>
    var created: map<string, Built>
    /** The names built, in order. */
    var log: seq<string>

    constructor (cfg: Config, libs: Libraries)
      ensures this.cfg == cfg && this.libs == libs && created == map[] && visited == {} && log == []
    {
      this.cfg, this.libs := cfg, libs;
      visited, created, log := {}, map[], [];
    }

    ghost predicate Valid()
      reads this
    {
      && Coherent(cfg, libs, created)
      && Distinct(log) && Names(log) == created.Keys
    }

    /** The names on the recursion stack are exactly those visited but not yet built. */
    ghost predicate OnStack(stack: seq<string>)
      reads this
    {
      visited - created.Keys == Names(stack)
    }

    /** Memoises a router built from memoised children, taking its name off the stack. */
    method Memoise(name: string, router: Built, ghost stack: seq<string>)
      requires Valid() && OnStack(stack + [name]) && name in visited && name !in created && name !in stack
      requires NodeOf(cfg, libs, created[name := router], name)
      modifies this`created, this`log
      ensures Valid() && OnStack(stack)
      ensures created == old(created)[name := router] && log == old(log) + [name]
    {
      ghost var before := created;
      created, log := created[name := router], log + [name];
      forall n | n in created
        ensures NodeOf(cfg, libs, created, n)
      {
        assert n != name ==> NodeOf(cfg, libs, before, n);
      }
      assert Names(log) == Names(old(log)) + {name};
      assert Names(stack + [name]) == Names(stack) + {name};
    }

    /** Looks a name up, or builds it; `stack` holds the names whose building led here. */
    method Parse1(name: string, ghost stack: seq<string>) returns (r: Result<Built, Failure>)
      requires Valid() && OnStack(stack) && IsPath(cfg, stack + [name])
      modifies this
      ensures Extends(created, old(created)) && old(visited) <= visited
      ensures r.Ok? ==> Valid() && OnStack(stack) && name in created && created[name] == r.value
      ensures forall n :: n in created ==> n in old(created) || Reaches(cfg, (stack + [name])[0], n)
      ensures r.Err? ==> Explains(cfg, libs, (stack + [name])[0], r.error)
      decreases |cfg.Keys - visited|, 0
    {
      if name in created {
        return Ok(created[name]);
      }
      ghost var path := stack + [name];
      SubPath(cfg, path, 0, |path| - 1);
      assert name in visited - created.Keys <==> name in Names(stack);
      if name in visited {
        StackLoops(cfg, stack, name);
        return Err(Loop(name));
      }
      ghost var before := cfg.Keys - visited;
      visited := visited + {name};
      if name !in cfg {
        return Err(Missing(name));
      }
      assert cfg.Keys - visited == before - {name};
      assert Names(path) == Names(stack) + {name};
      assert OnStack(path);
      r := Construct(name, path);
      if r.Ok? {
        Memoise(name, r.value, stack);
      }
    }

    /** Builds a defined name that has just been pushed on the stack, without memoising it. */
    method Construct(name: string, ghost path: seq<string>) returns (r: Result<Built, Failure>)
      requires Valid() && OnStack(path) && IsPath(cfg, path) && path[|path| - 1] == name && name in cfg
      modifies this
      ensures Extends(created, old(created)) && old(visited) <= visited
      ensures r.Ok? ==> Valid() && OnStack(path) && NodeOf(cfg, libs, created[name := r.value], name)
      ensures forall n :: n in created ==> n in old(created) || Reaches(cfg, path[0], n)
      ensures r.Err? ==> Explains(cfg, libs, path[0], r.error)
      decreases |cfg.Keys - visited|, 2
    {
      SubPath(cfg, path, 0, |path| - 1);
      match cfg[name] {
        case Http(endpoint) =>
          r := if endpoint != "" && libs.http(endpoint) then Ok(HttpLeaf(endpoint)) else Err(LeafFailed(name));
        case Dht(mode, accelerated, public) =>
          if !accelerated && mode != "auto" && mode != "client" && mode != "server" {
            return Err(LeafFailed(name));
          }
          r := if libs.dht(mode, accelerated, public) then Ok(DhtLeaf(mode, accelerated, public))
               else Err(LeafFailed(name));
        case Composable(kind, children) =>
          forall i | 0 <= i < |children|
            ensures IsPath(cfg, path + [children[i].name])
          {
            PathExtends(cfg, path, children[i].name);
          }
          var kids := ParseChildren(children, path);
          if kids.Err? {
            return Err(kids.error);
          }
          assert name in Names(path);
          r := Ok(Node(kind, MakeKids(kind, children, kids.value)));
        case UnknownType(_) =>
          r := Err(BadType(name));
      }
    }

    method ParseChildren(children: seq<ConfigRouter>, ghost stack: seq<string>) returns (r: Result<seq<Built>, Failure>)
      requires Valid() && OnStack(stack) && stack != [] && IsPath(cfg, stack)
      requires forall i :: 0 <= i < |children| ==> IsPath(cfg, stack + [children[i].name])
      modifies this
      ensures Extends(created, old(created)) && old(visited) <= visited
      ensures r.Ok? ==> Valid() && OnStack(stack) && |r.value| == |children|
      ensures r.Ok? ==> forall i :: 0 <= i < |children| ==>
                children[i].name in created && r.value[i] == created[children[i].name]
      ensures forall n :: n in created ==> n in old(created) || Reaches(cfg, stack[0], n)
      ensures r.Err? ==> Explains(cfg, libs, stack[0], r.error)
      decreases |cfg.Keys - visited|, 1
    {
      ghost var start := cfg.Keys - visited;
      var routers: seq<Built> := [];
      for k := 0 to |children|
        invariant Valid() && OnStack(stack) && |routers| == k
        invariant Extends(created, old(created)) && old(visited) <= visited
        invariant forall i :: 0 <= i < k ==> children[i].name in created && routers[i] == created[children[i].name]
        invariant forall n :: n in created ==> n in old(created) || Reaches(cfg, stack[0], n)
      {
        assert cfg.Keys - visited <= start;
        Shrinks(cfg.Keys - visited, start);
        var ri := Parse1(children[k].name, stack);
        if ri.Err? {
          return Err(ri.error);
        }
        routers := routers + [ri.value];
      }
      r := Ok(routers);
    }

    /** Builds for one method, with no name visited yet. */
    method ParseFresh(name: string) returns (r: Result<Built, Failure>)
      requires Valid()
      modifies this
      ensures Extends(created, old(created))
      ensures r.Ok? ==> Valid() && name in created && created[name] == r.value
      ensures forall n :: n in created ==> n in old(created) || Reaches(cfg, name, n)
      ensures r.Err? ==> Explains(cfg, libs, name, r.error)
    {
      visited := {};
      assert [] + [name] == [name];
      r := Parse1(name, []);
    }

    /** Builds the routers of all methods, taking the methods in any order. */
    method ParseMethods(methods: map<string, string>) returns (r: Result<map<string, Built>, Failure>)
      requires created == map[] && log == []
      modifies this
      ensures r.Ok? ==> Serves(cfg, libs, methods, r.value) && Distinct(log) && OnlyNeeded(cfg, methods, log)
      ensures r.Err? ==> Blames(cfg, libs, methods, r.error)
    {
      var todo := methods.Keys;
      var routers: map<string, Built> := map[];
      while todo != {}
        invariant todo <= methods.Keys && Valid()
        invariant routers.Keys == methods.Keys - todo
        invariant forall m :: m in routers ==> methods[m] in created && created[methods[m]] == routers[m]
        invariant forall n :: n in created ==> Needed(cfg, methods, n)
      {
        var m :| m in todo;
        todo := todo - {m};
        var router := ParseFresh(methods[m]);
        if router.Err? {
          return Err(router.error);
        }
        routers := routers[m := router.value];
      }
      MemoServes(cfg, libs, created, methods, routers);
      assert forall x :: x in log <==> x in Names(log);
      r := Ok(routers);
    }

    /** The composed router: one router for each of the five methods. */
    method Parse(methods: map<string, string>) returns (r: Result<Composer, ParseFailure>)
      modifies this
      ensures r.Ok? <==>
                && methods.Keys == Names(METHOD_NAMES)
                && forall m :: m in methods ==> Buildable(cfg, libs, methods[m])
      ensures r.Ok? ==> forall m :: m in methods ==> IsUnfolding(cfg, methods[m], r.value.For(m))
      ensures r.Ok? ==> Distinct(log) && OnlyNeeded(cfg, methods, log)
      ensures r.Err? && r.error.BadMethods? ==> r.error.check.Explains(methods)
      ensures r.Err? && r.error.BadRouter? ==> Blames(cfg, libs, methods, r.error.failure)
    {
      var bad := CheckMethods(methods);
      if bad.Some? {
        return Err(BadMethods(bad.value));
      }
      created, log := map[], [];
      var routers := ParseMethods(methods);
      if routers.Err? {
        BlamedNotBuildable(cfg, libs, methods, routers.error);
        return Err(BadRouter(routers.error));
      }
      r := Ok(Compose(routers.value));
    }
  }

  ghost predicate Needed(cfg: Config, methods: map<string, string>, x: string) {
    exists m :: m in methods && Reaches(cfg, methods[m], x)
  }

  /** The names built are exactly those some method depends on. */
  ghost predicate OnlyNeeded(cfg: Config, methods: map<string, string>, log: seq<string>) {
    forall x :: x in log <==> Needed(cfg, methods, x)
  }

  ghost predicate Blames(cfg: Config, libs: Libraries, methods: map<string, string>, f: Failure) {
    exists m :: m in methods && Explains(cfg, libs, methods[m], f)
  }

  /** Every method has the router its name unfolds to, and that name is buildable. */
  ghost predicate Serves(cfg: Config, libs: Libraries, methods: map<string, string>, routers: map<string, Built>) {
    && routers.Keys == methods.Keys
    && forall m :: m in methods ==> Buildable(cfg, libs, methods[m]) && IsUnfolding(cfg, methods[m], routers[m])
  }

  lemma BlamedNotBuildable(cfg: Config, libs: Libraries, methods: map<string, string>, f: Failure)
    requires Blames(cfg, libs, methods, f)
    ensures exists m :: m in methods && !Buildable(cfg, libs, methods[m])
  {
    var m :| m in methods && Explains(cfg, libs, methods[m], f);
    ExplainedNotBuildable(cfg, libs, methods[m], f);
  }

  lemma MemoServes(cfg: Config, libs: Libraries, created: map<string, Built>, methods: map<string, string>,
                   routers: map<string, Built>)
    requires Coherent(cfg, libs, created) && routers.Keys == methods.Keys
    requires forall m :: m in routers ==> methods[m] in created && created[methods[m]] == routers[m]
    ensures Serves(cfg, libs, methods, routers)
    ensures forall x :: Needed(cfg, methods, x) ==> x in created
  {
    forall m | m in methods
      ensures Buildable(cfg, libs, methods[m]) && IsUnfolding(cfg, methods[m], routers[m])
      ensures forall x :: Reaches(cfg, methods[m], x) ==> x in created
    {
      assert m in routers;
      CoherentBuildable(cfg, libs, created, methods[m]);
      CoherentUnfolds(cfg, libs, created, methods[m]);
    }
  }

  lemma Shrinks(a: set<string>, b: set<string>)
    requires a <= b
    ensures |a| <= |b|
  {
    if x :| x in b && x !in a {
      Shrinks(a, b - {x});
    } else {
      assert a == b;
    }
  }

  /** A name met again while still on the stack closes a dependency loop. */
  lemma StackLoops(cfg: Config, stack: seq<string>, name: string)
    requires IsPath(cfg, stack + [name]) && name in stack
    ensures OnCycle(cfg, name)
  {
    var p := stack + [name];
    var i :| 0 <= i < |stack| && stack[i] == name;
    SubPath(cfg, p, i, |p| - 1);
    assert PathTo(cfg, name, name, p[i..]) && |p[i..]| > 1 by { assert p[i..] == p[i..|p|]; }
  }

  // Providing through HTTP

  /**
   * Whether a router is or includes an HTTP router. The source recurses with no guard against dependency
   * loops: `depth` bounds the nested calls and None says the bound was reached, so a call returns in the
   * source exactly when some depth yields a value.
   */
  function Supports(cfg: Config, name: string, depth: nat): Option<bool>
    decreases depth, 0
  {
    if depth == 0 then None
    else if name !in cfg then Some(false)
    else
      match cfg[name]
      case Http(_) => Some(true)
      case Composable(_, children) => AnySupports(cfg, children, depth - 1)
      case Dht(_, _, _) => Some(false)
      case UnknownType(_) => Some(false)
  }

  function AnySupports(cfg: Config, children: seq<ConfigRouter>, depth: nat): Option<bool>
    decreases depth, |children| + 1
  {
    if children == [] then Some(false)
    else
      match Supports(cfg, children[0].name, depth)
      case None => None
      case Some(found) => if found then Some(true) else AnySupports(cfg, children[1..], depth)
  }

  function HasHttpProvider(cfg: Config, methods: map<string, string>, depth: nat): Option<bool> {
    if |cfg| == 0 || "provide" !in methods then Some(false) else Supports(cfg, methods["provide"], depth)
  }

  /** On a name that unfolds to a tree the recursion returns, and finds exactly the tree's HTTP leaves. */
  lemma {:induction false} SupportsUnfolding(cfg: Config, name: string, t: Built, depth: nat)
    requires IsUnfolding(cfg, name, t) && depth > Height(t)
    ensures Supports(cfg, name, depth) == Some(HasHttp(t))
    decreases t, 1, 0
  {
    if t.Node? {
      AnySupportsUnfolding(cfg, name, t, 0, depth - 1);
    }
  }

  lemma {:induction false} AnySupportsUnfolding(cfg: Config, name: string, t: Built, from: nat, depth: nat)
    requires IsUnfolding(cfg, name, t) && t.Node? && depth >= Height(t) && from <= |t.kids|
    ensures AnySupports(cfg, cfg[name].children[from..], depth)
            == Some(exists i :: from <= i < |t.kids| && HasHttp(t.kids[i].router))
    decreases t, 0, |t.kids| - from
  {
    if from == |t.kids| {
    } else {
      var rest := cfg[name].children[from..];
      assert rest[0] == cfg[name].children[from] && rest[1..] == cfg[name].children[from + 1..];
      SupportsUnfolding(cfg, rest[0].name, t.kids[from].router, depth);
      AnySupportsUnfolding(cfg, name, t, from + 1, depth);
    }
  }

  /** For a configuration that was accepted, the two recursions agree about providing. */
  lemma ProvideAgreement(cfg: Config, methods: map<string, string>, c: Composer, depth: nat)
    requires methods.Keys == Names(METHOD_NAMES)
    requires forall m :: m in methods ==> IsUnfolding(cfg, methods[m], c.For(m))
    requires depth > Height(c.provide)
    ensures HasHttpProvider(cfg, methods, depth) == Some(HasHttp(c.provide))
  {
    assert METHOD_NAMES[0] == "provide" && METHOD_NAMES[0] in Names(METHOD_NAMES);
    assert "provide" in methods && c.For("provide") == c.provide;
    assert methods["provide"] in cfg;
    SupportsUnfolding(cfg, methods["provide"], c.provide, depth);
  }

  /** A router that includes itself first is asked forever. */
  lemma {:induction false} SelfLoopNeverReturns(name: string, depth: nat)
    ensures var cfg := map[name := Composable(Parallel, [ConfigRouter(name, 0, false, None)])];
            Supports(cfg, name, depth) == None
  {
    if depth == 0 {
    } else {
      SelfLoopNeverReturns(name, depth - 1);
    }
  }

  // Which configurations the query runs forever on

  ghost predicate IsHttp(cfg: Config, name: string) {
    name in cfg && cfg[name].Http?
  }

  /** Nothing reachable is an HTTP router or lies on a dependency loop: the query passes over the name. */
  ghost predicate Quiet(cfg: Config, name: string) {
    forall x :: Reaches(cfg, name, x) ==> !IsHttp(cfg, x) && !OnCycle(cfg, x)
  }

  /** The query gets to child `j` of a router: it passes over all earlier children. */
  ghost predicate GetsTo(cfg: Config, name: string, j: nat) {
    && name in cfg && cfg[name].Composable? && j < |cfg[name].children|
    && forall i :: 0 <= i < j ==> Quiet(cfg, cfg[name].children[i].name)
  }

  ghost predicate LiveStepAt(cfg: Config, p: seq<string>, i: nat)
    requires i + 1 < |p|
  {
    exists j: nat :: GetsTo(cfg, p[i], j) && cfg[p[i]].children[j].name == p[i + 1]
  }

  /** A chain of nested calls that the query makes. */
  ghost predicate IsLive(cfg: Config, p: seq<string>) {
    |p| > 0 && forall i :: 0 <= i < |p| - 1 ==> LiveStepAt(cfg, p, i)
  }

  /** The query comes back, while asking about a name, to that name. */
  ghost predicate HasLiveLoop(cfg: Config, name: string) {
    exists p :: IsLive(cfg, p) && p[0] == name && !Distinct(p)
  }

  lemma {:induction false} TrueHasHttp(cfg: Config, name: string, depth: nat) returns (p: seq<string>)
    requires Supports(cfg, name, depth) == Some(true)
    ensures IsPath(cfg, p) && p[0] == name && IsHttp(cfg, p[|p| - 1])
    decreases depth
  {
    if cfg[name].Http? {
      p := [name];
    } else {
      var children := cfg[name].children;
      var j := FirstTrue(cfg, children, depth - 1);
      var q := TrueHasHttp(cfg, children[j].name, depth - 1);
      p := [name] + q;
      PathPrepends(cfg, name, j, q);
    }
  }

  lemma {:induction false} FirstTrue(cfg: Config, children: seq<ConfigRouter>, depth: nat) returns (j: nat)
    requires AnySupports(cfg, children, depth) == Some(true)
    ensures j < |children| && Supports(cfg, children[j].name, depth) == Some(true)
  {
    if Supports(cfg, children[0].name, depth) == Some(true) {
      j := 0;
    } else {
      j := FirstTrue(cfg, children[1..], depth);
      j := j + 1;
    }
  }

  lemma PathPrepends(cfg: Config, name: string, j: nat, q: seq<string>)
    requires name in cfg && cfg[name].Composable? && j < |cfg[name].children|
    requires IsPath(cfg, q) && q[0] == cfg[name].children[j].name
    ensures IsPath(cfg, [name] + q)
  {
    var p := [name] + q;
    forall i | 0 <= i < |p| - 1
      ensures StepAt(cfg, p, i)
    {
      assert i > 0 ==> StepAt(cfg, q, i - 1);
    }
  }

  /** An answer of no means that every child was asked and answered no. */
  lemma {:induction false} AllFalse(cfg: Config, children: seq<ConfigRouter>, depth: nat, i: nat)
    requires AnySupports(cfg, children, depth) == Some(false) && i < |children|
    ensures Supports(cfg, children[i].name, depth) == Some(false)
  {
    if i == 0 {
    } else {
      AllFalse(cfg, children[1..], depth, i - 1);
    }
  }

  lemma {:induction false} FalseAlongPath(cfg: Config, p: seq<string>, depth: nat, i: nat)
    requires IsPath(cfg, p) && i < |p| && Supports(cfg, p[0], depth) == Some(false)
    ensures i < depth && Supports(cfg, p[i], depth - i) == Some(false)
  {
    if i == 0 {
    } else {
      FalseAlongPath(cfg, p, depth, i - 1);
      assert StepAt(cfg, p, i - 1);
      var children := cfg[p[i - 1]].children;
      var j :| 0 <= j < |children| && children[j].name == p[i];
      AllFalse(cfg, children, depth - i, j);
    }
  }

  lemma {:induction false} FalseOnNoCycle(cfg: Config, c: seq<string>, depth: nat)
    requires IsPath(cfg, c) && |c| > 1 && c[0] == c[|c| - 1]
    ensures Supports(cfg, c[0], depth) != Some(false)
  {
    if Supports(cfg, c[0], depth) == Some(false) {
      FalseAlongPath(cfg, c, depth, |c| - 1);
      FalseOnNoCycle(cfg, c, depth - (|c| - 1));
      assert false;
    }
  }

  lemma FalseIsQuiet(cfg: Config, name: string, depth: nat)
    requires Supports(cfg, name, depth) == Some(false)
    ensures Quiet(cfg, name)
  {
    forall x | Reaches(cfg, name, x)
      ensures !IsHttp(cfg, x) && !OnCycle(cfg, x)
    {
      var p :| PathTo(cfg, name, x, p);
      FalseAlongPath(cfg, p, depth, |p| - 1);
      if c :| PathTo(cfg, x, x, c) && |c| > 1 {
        FalseOnNoCycle(cfg, c, depth - (|p| - 1));
        assert false;
      }
    }
  }

  /** A query that returns has the answer of every child it gets to. */
  lemma {:induction false} AsksChild(cfg: Config, children: seq<ConfigRouter>, depth: nat, j: nat)
    requires AnySupports(cfg, children, depth).Some? && j < |children|
    requires forall i :: 0 <= i < j ==> Quiet(cfg, children[i].name)
    ensures Supports(cfg, children[j].name, depth).Some?
  {
    if j == 0 {
    } else {
      if Supports(cfg, children[0].name, depth) == Some(true) {
        var p := TrueHasHttp(cfg, children[0].name, depth);
        assert PathTo(cfg, children[0].name, p[|p| - 1], p);
        assert false;
      }
      AsksChild(cfg, children[1..], depth, j - 1);
    }
  }

  lemma {:induction false} ReturnsAlongLive(cfg: Config, p: seq<string>, depth: nat, i: nat)
    requires IsLive(cfg, p) && i < |p| && Supports(cfg, p[0], depth).Some?
    ensures i < depth && Supports(cfg, p[i], depth - i).Some?
  {
    if i == 0 {
    } else {
      ReturnsAlongLive(cfg, p, depth, i - 1);
      assert LiveStepAt(cfg, p, i - 1);
      var j: nat :| GetsTo(cfg, p[i - 1], j) && cfg[p[i - 1]].children[j].name == p[i];
      AsksChild(cfg, cfg[p[i - 1]].children, depth - i, j);
    }
  }

  lemma {:induction false} LiveLoopNeverReturns(cfg: Config, c: seq<string>, depth: nat)
    requires IsLive(cfg, c) && |c| > 1 && c[0] == c[|c| - 1]
    ensures Supports(cfg, c[0], depth) == None
  {
    if Supports(cfg, c[0], depth).Some? {
      ReturnsAlongLive(cfg, c, depth, |c| - 1);
      LiveLoopNeverReturns(cfg, c, depth - (|c| - 1));
      assert false;
    }
  }

  /** A query cut short at some depth was in the middle of a chain of that many live calls. */
  lemma {:induction false} CutShort(cfg: Config, name: string, depth: nat) returns (p: seq<string>)
    requires Supports(cfg, name, depth) == None
    ensures IsLive(cfg, p) && p[0] == name && |p| == depth + 1
    ensures forall i :: 0 <= i < depth ==> p[i] in cfg
    decreases depth
  {
    if depth == 0 {
      p := [name];
    } else {
      var children := cfg[name].children;
      var j := FirstUnanswered(cfg, children, depth - 1);
      var q := CutShort(cfg, children[j].name, depth - 1);
      p := [name] + q;
      forall i | 0 <= i < |p| - 1
        ensures LiveStepAt(cfg, p, i)
      {
        if i == 0 {
          assert GetsTo(cfg, p[0], j) && p[1] == q[0];
        } else {
          assert LiveStepAt(cfg, q, i - 1) && p[i] == q[i - 1] && p[i + 1] == q[i];
        }
      }
    }
  }

  lemma {:induction false} FirstUnanswered(cfg: Config, children: seq<ConfigRouter>, depth: nat) returns (j: nat)
    requires AnySupports(cfg, children, depth) == None
    ensures j < |children| && Supports(cfg, children[j].name, depth) == None
    ensures forall i :: 0 <= i < j ==> Quiet(cfg, children[i].name)
  {
    if Supports(cfg, children[0].name, depth) == None {
      j := 0;
    } else {
      FalseIsQuiet(cfg, children[0].name, depth);
      j := FirstUnanswered(cfg, children[1..], depth);
      j := j + 1;
    }
  }

  lemma {:induction false} DistinctFits(p: seq<string>, names: set<string>)
    requires Distinct(p) && forall i :: 0 <= i < |p| ==> p[i] in names
    ensures |p| <= |names|
  {
    if p == [] {
    } else {
      DistinctFits(p[1..], names - {p[0]});
    }
  }

  lemma LiveLoopRunsForever(cfg: Config, name: string, depth: nat)
    requires HasLiveLoop(cfg, name)
    ensures Supports(cfg, name, depth) == None
  {
    var p :| IsLive(cfg, p) && p[0] == name && !Distinct(p);
    var i, j :| 0 <= i < j < |p| && p[i] == p[j];
    var c := p[i..j + 1];
    forall k | 0 <= k < |c| - 1
      ensures LiveStepAt(cfg, c, k)
    {
      assert LiveStepAt(cfg, p, i + k);
    }
    if Supports(cfg, name, depth).Some? {
      ReturnsAlongLive(cfg, p, depth, i);
      LiveLoopNeverReturns(cfg, c, depth - i);
      assert false;
    }
  }

  lemma UnansweredHasLiveLoop(cfg: Config, name: string)
    requires Supports(cfg, name, |cfg| + 1) == None
    ensures HasLiveLoop(cfg, name)
  {
    var p := CutShort(cfg, name, |cfg| + 1);
    var q := p[..|cfg| + 1];
    if Distinct(q) {
      DistinctFits(q, cfg.Keys);
      assert false;
    }
    var i, j :| 0 <= i < j < |q| && q[i] == q[j];
    assert p[i] == p[j];
  }

  /**
   * On every configuration: the query runs forever iff it comes back to a name along children that it gets
   * to, and if it returns it does so within one nested call per defined name and one more.
   */
  lemma RunsForeverIffLiveLoop(cfg: Config, name: string)
    ensures (forall depth: nat :: Supports(cfg, name, depth) == None) <==> HasLiveLoop(cfg, name)
    ensures (exists depth: nat :: Supports(cfg, name, depth).Some?) ==> Supports(cfg, name, |cfg| + 1).Some?
  {
    var bound: nat := |cfg| + 1;
    if Supports(cfg, name, bound) == None {
      UnansweredHasLiveLoop(cfg, name);
    }
    if HasLiveLoop(cfg, name) {
      forall depth: nat
        ensures Supports(cfg, name, depth) == None
      {
        LiveLoopRunsForever(cfg, name, depth);
      }
    } else {
      assert Supports(cfg, name, bound) != None;
    }
  }

  /**
   * The provider query, on every configuration: a yes has an HTTP router below the provide method, a no has
   * neither an HTTP router nor a loop there, and it runs forever exactly on a live loop below that method.
   */
  lemma ProviderQuery(cfg: Config, methods: map<string, string>, depth: nat)
    ensures HasHttpProvider(cfg, methods, depth) == Some(true) ==>
              "provide" in methods && exists x :: Reaches(cfg, methods["provide"], x) && IsHttp(cfg, x)
    ensures HasHttpProvider(cfg, methods, depth) == Some(false) ==>
              "provide" in methods ==> Quiet(cfg, methods["provide"])
    ensures (forall d: nat :: HasHttpProvider(cfg, methods, d) == None)
            <==> "provide" in methods && HasLiveLoop(cfg, methods["provide"])
  {
    if "provide" in methods {
      var name := methods["provide"];
      if |cfg| == 0 {
        EmptyIsQuiet(cfg, name);
      } else {
        if Supports(cfg, name, depth) == Some(true) {
          var p := TrueHasHttp(cfg, name, depth);
          assert PathTo(cfg, name, p[|p| - 1], p);
        }
        if Supports(cfg, name, depth) == Some(false) {
          FalseIsQuiet(cfg, name, depth);
        }
        RunsForeverIffLiveLoop(cfg, name);
        assert forall d: nat :: HasHttpProvider(cfg, methods, d) == Supports(cfg, name, d);
      }
    } else {
      assert HasHttpProvider(cfg, methods, 0) == Some(false);
    }
  }

  /** Without routers the query has nothing to find and nothing to follow. */
  lemma EmptyIsQuiet(cfg: Config, name: string)
    requires cfg == map[]
    ensures Quiet(cfg, name) && !HasLiveLoop(cfg, name)
  {
    assert Supports(cfg, name, 1) == Some(false);
    FalseIsQuiet(cfg, name, 1);
    if HasLiveLoop(cfg, name) {
      LiveLoopRunsForever(cfg, name, 1);
    }
  }
}
