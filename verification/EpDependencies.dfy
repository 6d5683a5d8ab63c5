/** Dependencies between execution providers: each lists files and other providers it needs; resolving them gives every
    provider the files of all providers it reaches.
 */
module EpDependencies {
  import opened EpConditions

  datatype File = File(name: string, path: string, condition: Condition)
  datatype Ref = Ref(name: string, condition: Condition)
  datatype Entry = Entry(name: string, files: seq<File>, dependencies: seq<Ref>)
  type Deps = map<string, Entry>

  // ----- The graph.

  ghost predicate Edge(deps: Deps, x: string, y: string) {
    x in deps && exists e :: 0 <= e < |deps[x].dependencies| && deps[x].dependencies[e].name == y
  }

  ghost predicate Walk(deps: Deps, p: seq<string>) {
    p != [] && forall i :: 0 <= i < |p| - 1 ==> Edge(deps, p[i], p[i + 1])
  }

  ghost predicate Reaches(deps: Deps, x: string, y: string) {
    exists p :: Walk(deps, p) && p[0] == x && p[|p| - 1] == y
  }

  /** A walk that ends at a name nobody has, or where it has been before. */
  ghost predicate Stuck(deps: Deps, p: seq<string>) {
    Walk(deps, p) && (p[|p| - 1] !in deps || p[|p| - 1] in p[..|p| - 1])
  }

  /** From `x` no missing name and no cycle can be reached. */
  ghost predicate Resolvable(deps: Deps, x: string) {
    forall p :: Walk(deps, p) && p[0] == x ==> !Stuck(deps, p)
  }

  /** Provider `x` lists a file called `n`. */
  ghost predicate HasFile(deps: Deps, x: string, n: string) {
    x in deps && Listed(deps[x].files, n)
  }

  predicate Listed(files: seq<File>, n: string) {
    exists i :: 0 <= i < |files| && files[i].name == n
  }

  // ----- Routes: walks with the conditions on their edges.

  ghost predicate Route(deps: Deps, root: string, refs: seq<Ref>) {
    forall i :: 0 <= i < |refs| ==> Stop(root, refs, i) in deps && refs[i] in deps[Stop(root, refs, i)].dependencies
  }

  /** The provider after `i` edges. */
  ghost function Stop(root: string, refs: seq<Ref>, i: nat): string
    requires i <= |refs|
  {
    if i == 0 then root else refs[i - 1].name
  }

  ghost function Stops(root: string, refs: seq<Ref>): (p: seq<string>)
    ensures |p| == |refs| + 1
  {
    seq(|refs| + 1, i requires 0 <= i <= |refs| => Stop(root, refs, i))
  }

  /** The condition inherited along a route. */
  ghost function Inherited(refs: seq<Ref>): Condition {
    if refs == [] then [] else Combined(Inherited(refs[..|refs| - 1]), refs[|refs| - 1].condition)
  }

  lemma RouteWalks(deps: Deps, root: string, refs: seq<Ref>)
    requires Route(deps, root, refs)
    ensures Walk(deps, Stops(root, refs))
  {
    var p := Stops(root, refs);
    forall i | 0 <= i < |p| - 1
      ensures Edge(deps, p[i], p[i + 1])
    {
      assert refs[i] in deps[Stop(root, refs, i)].dependencies;
    }
  }

  lemma StopOn(root: string, refs: seq<Ref>, r: Ref, i: nat)
    requires i <= |refs| + 1
    ensures Stop(root, refs + [r], i) == if i <= |refs| then Stop(root, refs, i) else r.name
  {
  }

  lemma StopsOn(root: string, refs: seq<Ref>, r: Ref)
    ensures Stops(root, refs + [r]) == Stops(root, refs) + [r.name]
  {
    hide Stop;
    forall i | 0 <= i <= |refs| + 1
      ensures Stop(root, refs + [r], i) == if i <= |refs| then Stop(root, refs, i) else r.name
    {
      StopOn(root, refs, r, i);
    }
  }

  lemma InheritedOn(refs: seq<Ref>, r: Ref)
    ensures Inherited(refs + [r]) == Combined(Inherited(refs), r.condition)
  {
    hide Combined;
    assert (refs + [r])[..|refs|] == refs;
  }

  lemma RouteOn(deps: Deps, root: string, refs: seq<Ref>, r: Ref)
    requires Route(deps, root, refs) && Stop(root, refs, |refs|) in deps && r in deps[Stop(root, refs, |refs|)].dependencies
    ensures Route(deps, root, refs + [r])
  {
    hide Stop;
    forall i | 0 <= i < |refs| + 1
      ensures Stop(root, refs + [r], i) in deps && (refs + [r])[i] in deps[Stop(root, refs + [r], i)].dependencies
    {
      StopOn(root, refs, r, i);
    }
  }

  // ----- What the inherited condition means.

  ghost predicate AllMatch(refs: seq<Ref>, config: Json) {
    forall i :: 0 <= i < |refs| ==> Matches(refs[i].condition, config)
  }

  /** Along the route no combination of two non-empty conditions came out empty. */
  ghost predicate NothingDropped(refs: seq<Ref>) {
    refs == [] ||
    var m := |refs| - 1;
    var before, c := Inherited(refs[..m]), refs[m].condition;
    NothingDropped(refs[..m]) && (before == [] || c == [] || Combined(before, c) != [])
  }

  ghost predicate PlainCondition(c: Condition) {
    LowerCase(c) && NonEmptyCondition(c)
  }

  ghost predicate Plain(refs: seq<Ref>) {
    forall i :: 0 <= i < |refs| ==> PlainCondition(refs[i].condition)
  }

  lemma AllMatchOn(refs: seq<Ref>, config: Json)
    requires refs != []
    ensures AllMatch(refs, config) <==> AllMatch(refs[..|refs| - 1], config) && Matches(refs[|refs| - 1].condition, config)
  {
    hide Matches;
  }

  lemma {:induction false} InheritedPlain(refs: seq<Ref>)
    requires Plain(refs)
    ensures PlainCondition(Inherited(refs))
  {
    hide Combined, LowerClause, NonEmptyLists;
    if refs != [] {
      var m := |refs| - 1;
      InheritedPlain(refs[..m]);
      CombinedKeeps(Inherited(refs[..m]), refs[m].condition);
    }
  }

  lemma {:induction false} DroppedNeverMatches(refs: seq<Ref>, config: Json)
    requires Plain(refs) && !NothingDropped(refs)
    ensures !AllMatch(refs, config)
  {
    hide Combined, LowerCase, NonEmptyCondition, Matches;
    var m := |refs| - 1;
    AllMatchOn(refs, config);
    if NothingDropped(refs[..m]) {
      var before, c := Inherited(refs[..m]), refs[m].condition;
      NothingDroppedExact(refs[..m]);
      InheritedPlain(refs[..m]);
      LowerCaseSpelled(before, c);
      CombinedEmptyIff(before, c);
    } else {
      DroppedNeverMatches(refs[..m], config);
    }
  }

  lemma {:induction false} NothingDroppedExact(refs: seq<Ref>)
    requires Plain(refs)
    ensures NothingDropped(refs) <==> forall config :: Matches(Inherited(refs), config) <==> AllMatch(refs, config)
  {
    hide Combined, LowerCase, NonEmptyCondition, Matches, AllSpelled, SomePairFits;
    if refs == [] {
      forall config ensures Matches([], config) { EmptyMatches(config); }
    } else {
      var m := |refs| - 1;
      var before, c := Inherited(refs[..m]), refs[m].condition;
      InheritedPlain(refs[..m]);
      if NothingDropped(refs[..m]) {
        NothingDroppedExact(refs[..m]);
        LowerCaseSpelled(before, c);
        CombinedMeansBoth(before, c);
        if before != [] && c != [] { CombinedFits(before, c); }
        forall config
          ensures AllMatch(refs, config) <==> Matches(before, config) && Matches(c, config)
        {
          AllMatchOn(refs, config);
        }
      } else {
        InheritedPlain(refs);
        var config := Satisfiable(Inherited(refs));
        DroppedNeverMatches(refs, config);
      }
    }
  }

  /** With lower-case, non-empty value lists: the inherited condition means that all conditions on the route hold,
      exactly if some configuration meets them all.  Otherwise some combination on the way comes out empty, and the
      inherited condition holds where it should not. */
  lemma InheritedExact(refs: seq<Ref>)
    requires Plain(refs)
    ensures (exists config :: AllMatch(refs, config)) <==> forall config :: Matches(Inherited(refs), config) <==> AllMatch(refs, config)
  {
    hide Combined, LowerCase, NonEmptyCondition, Matches, AllMatch, Inherited, Plain;
    NothingDroppedExact(refs);
    InheritedPlain(refs);
    var config := Satisfiable(Inherited(refs));
    if NothingDropped(refs) {
      assert AllMatch(refs, config);
    } else if exists c :: AllMatch(refs, c) {
      var c :| AllMatch(refs, c);
      DroppedNeverMatches(refs, c);
    }
  }

  // ----- The first route to a file.

  /** The names a provider ends up with: those of all providers it reaches. */
  ghost predicate InClosure(g: Deps, x: string, n: string) {
    exists y :: Reaches(g, x, y) && HasFile(g, y, n)
  }

  /** Edge `e` of provider `x` leads to a file called `n`, and no edge before it does. */
  ghost predicate FirstEdge(deps: Deps, x: string, e: nat, r: Ref, n: string) {
    && x in deps && e < |deps[x].dependencies| && deps[x].dependencies[e] == r
    && forall k :: 0 <= k < e ==> !InClosure(deps, deps[x].dependencies[k].name, n)
  }

  /** The route to the provider that is meant when `x` needs a file called `n`: `x` itself if it has such a file,
      otherwise through the first dependency that leads to one. */
  ghost predicate FirstRoute(deps: Deps, x: string, refs: seq<Ref>, n: string)
    decreases |refs|
  {
    if refs == [] then HasFile(deps, x, n)
    else
      && !HasFile(deps, x, n) && (exists e :: FirstEdge(deps, x, e, refs[0], n))
      && FirstRoute(deps, refs[0].name, refs[1..], n)
  }

  lemma FirstRouteHere(deps: Deps, x: string, n: string)
    ensures FirstRoute(deps, x, [], n) <==> HasFile(deps, x, n)
  {
  }

  lemma FirstRouteStep(deps: Deps, x: string, e: nat, r: Ref, refs: seq<Ref>, n: string)
    requires !HasFile(deps, x, n) && FirstEdge(deps, x, e, r, n) && FirstRoute(deps, r.name, refs, n)
    ensures FirstRoute(deps, x, [r] + refs, n)
  {
    hide HasFile, FirstEdge;
    assert ([r] + refs)[1..] == refs;
  }

  /** The first of the files with its name. */
  ghost predicate FirstNamed(files: seq<File>, f: File) {
    exists k :: 0 <= k < |files| && files[k] == f && !Listed(files[..k], f.name)
  }

  lemma ReachesSelf(g: Deps, x: string)
    ensures Reaches(g, x, x)
  {
    assert Walk(g, [x]);
  }

  lemma {:induction false} ReachesTrans(g: Deps, x: string, y: string, z: string)
    requires Reaches(g, x, y) && Reaches(g, y, z)
    ensures Reaches(g, x, z)
  {
    var p :| Walk(g, p) && p[0] == x && p[|p| - 1] == y;
    var q :| Walk(g, q) && q[0] == y && q[|q| - 1] == z;
    var w := p + q[1..];
    forall i | 0 <= i < |w| - 1
      ensures Edge(g, w[i], w[i + 1])
    {
      if i < |p| - 1 {
        assert Edge(g, p[i], p[i + 1]);
      } else {
        assert Edge(g, q[i - (|p| - 1)], q[i - (|p| - 1) + 1]);
      }
    }
    assert w[0] == x && w[|w| - 1] == z;
  }

  lemma ReachesNext(g: Deps, x: string, e: nat)
    requires x in g && e < |g[x].dependencies|
    ensures Reaches(g, x, g[x].dependencies[e].name)
  {
    var y := g[x].dependencies[e].name;
    assert Edge(g, x, y);
    assert Walk(g, [x, y]);
  }

  lemma {:induction false} FirstRouteLeads(deps: Deps, x: string, refs: seq<Ref>, n: string)
    requires FirstRoute(deps, x, refs, n)
    ensures InClosure(deps, x, n)
    decreases |refs|
  {
    hide Reaches, HasFile;
    if refs == [] {
      ReachesSelf(deps, x);
    } else {
      var e :| FirstEdge(deps, x, e, refs[0], n);
      FirstRouteLeads(deps, refs[0].name, refs[1..], n);
      var y :| Reaches(deps, refs[0].name, y) && HasFile(deps, y, n);
      ReachesNext(deps, x, e);
      ReachesTrans(deps, x, refs[0].name, y);
    }
  }

  /** There is only one first route. */
  lemma {:induction false} FirstRouteUnique(deps: Deps, x: string, refs: seq<Ref>, refs': seq<Ref>, n: string)
    requires FirstRoute(deps, x, refs, n) && FirstRoute(deps, x, refs', n)
    ensures refs == refs'
    decreases |refs|
  {
    hide InClosure, HasFile;
    if refs != [] && refs' != [] {
      var e :| FirstEdge(deps, x, e, refs[0], n);
      var e' :| FirstEdge(deps, x, e', refs'[0], n);
      FirstRouteLeads(deps, refs[0].name, refs[1..], n);
      FirstRouteLeads(deps, refs'[0].name, refs'[1..], n);
      assert e == e';
      FirstRouteUnique(deps, refs[0].name, refs[1..], refs'[1..], n);
    }
  }

  // ----- Finished providers.

  /** Every provider in `order` only needs providers that come before it. */
  ghost predicate Finished(deps: Deps, order: seq<string>) {
    && (forall i, j :: 0 <= i < j < |order| ==> order[i] != order[j])
    && (forall i :: 0 <= i < |order| ==> order[i] in deps)
    && (forall i, y :: 0 <= i < |order| && Edge(deps, order[i], y) ==> y in order[..i])
  }

  lemma NotBefore(deps: Deps, order: seq<string>, l: nat, j: nat)
    requires Finished(deps, order) && j < l < |order|
    ensures order[l] !in order[..j + 1]
  {
  }

  /** A walk from a finished provider goes back in the order with every step. */
  lemma {:induction false} WalkGoesBack(deps: Deps, order: seq<string>, p: seq<string>, i: nat) returns (j: nat)
    requires Finished(deps, order) && Walk(deps, p) && i < |order| && order[i] == p[0]
    ensures j < |order| && order[j] == p[|p| - 1] && j + |p| <= i + 1
    ensures forall k :: 0 <= k < |p| - 1 ==> p[k] !in order[..j + 1]
    decreases |p|
  {
    if |p| == 1 {
      j := i;
    } else {
      var m := |p| - 1;
      var l := WalkGoesBack(deps, order, p[..m], i);
      assert Edge(deps, p[m - 1], p[m]);
      assert p[m] in order[..l];
      j :| 0 <= j < l && order[j] == p[m];
      forall k | 0 <= k < m
        ensures p[k] !in order[..j + 1]
      {
        assert p[..m][k] == p[k];
        assert k < m - 1 ==> p[k] !in order[..l + 1];
        NotBefore(deps, order, l, j);
      }
    }
  }

  /** From a finished provider nothing bad can be reached, and everything reached is finished. */
  lemma FinishedResolvable(deps: Deps, order: seq<string>, x: string)
    requires Finished(deps, order) && x in order
    ensures Resolvable(deps, x)
    ensures forall y :: Reaches(deps, x, y) ==> y in order
  {
    var i :| 0 <= i < |order| && order[i] == x;
    forall p | Walk(deps, p) && p[0] == x
      ensures !Stuck(deps, p) && p[|p| - 1] in order
    {
      var j := WalkGoesBack(deps, order, p, i);
      assert order[j] == order[..j + 1][j];
      assert forall k :: 0 <= k < |p| - 1 ==> p[k] != order[j];
    }
  }

  // ----- Collecting.

  /** The file that is meant by its name: the first one of that name at the end of the first route. */
  ghost predicate Meant(deps: Deps, root: string, refs: seq<Ref>, f: File) {
    && Route(deps, root, refs) && FirstRoute(deps, root, refs, f.name)
    && Stop(root, refs, |refs|) in deps && FirstNamed(deps[Stop(root, refs, |refs|)].files, f)
  }

  /** File `g` is `f`, gated by all conditions on the way and its own. */
  ghost predicate GatedBy(deps: Deps, root: string, g: File, refs: seq<Ref>, f: File) {
    Meant(deps, root, refs, f) && g == File(f.name, f.path, Combined(Inherited(refs), f.condition))
  }

  ghost predicate Gated(deps: Deps, root: string, g: File) {
    exists refs, f :: GatedBy(deps, root, g, refs, f)
  }

  ghost predicate NoDoubles(files: seq<File>) {
    forall i, j :: 0 <= i < j < |files| ==> files[i].name != files[j].name
  }

  /** `files` are gated files of providers reached from `root`, no two with the same name. */
  ghost predicate AllGated(deps: Deps, root: string, files: seq<File>) {
    NoDoubles(files) && forall i :: 0 <= i < |files| ==> Gated(deps, root, files[i])
  }

  /** The names listed are those of the files of the providers visited. */
  ghost predicate Covers(deps: Deps, visited: set<string>, files: seq<File>) {
    forall n :: Listed(files, n) <==> exists x :: x in visited && HasFile(deps, x, n)
  }

  /** Edge `e` of provider `x` is being followed; those before it are done with. */
  ghost predicate Following(deps: Deps, x: string, e: nat, r: Ref, order: seq<string>) {
    && x in deps && e < |deps[x].dependencies| && deps[x].dependencies[e] == r
    && forall k :: 0 <= k < e ==> deps[x].dependencies[k].name in order
  }

  ghost predicate OnTheWay(deps: Deps, root: string, refs: seq<Ref>, order: seq<string>) {
    forall i :: 0 <= i < |refs| ==> Followed(deps, Stop(root, refs, i), refs[i], order)
  }

  ghost predicate Followed(deps: Deps, x: string, r: Ref, order: seq<string>) {
    exists e :: Following(deps, x, e, r, order)
  }

  lemma OnTheWayMono(deps: Deps, root: string, refs: seq<Ref>, order: seq<string>, order': seq<string>)
    requires OnTheWay(deps, root, refs, order) && forall x :: x in order ==> x in order'
    ensures OnTheWay(deps, root, refs, order')
  {
    hide Stop;
    forall i | 0 <= i < |refs|
      ensures Followed(deps, Stop(root, refs, i), refs[i], order')
    {
      var e :| Following(deps, Stop(root, refs, i), e, refs[i], order);
      assert Following(deps, Stop(root, refs, i), e, refs[i], order');
    }
  }

  lemma OnTheWayNext(deps: Deps, root: string, refs: seq<Ref>, order: seq<string>, e: nat, r: Ref)
    requires OnTheWay(deps, root, refs, order) && Following(deps, Stop(root, refs, |refs|), e, r, order)
    ensures OnTheWay(deps, root, refs + [r], order)
  {
    hide Stop, Following;
    forall i | 0 <= i < |refs| + 1
      ensures Followed(deps, Stop(root, refs + [r], i), (refs + [r])[i], order)
    {
      StopOn(root, refs, r, i);
      assert i < |refs| ==> Followed(deps, Stop(root, refs, i), refs[i], order);
    }
  }

  /** An edge being followed is a first edge when the finished providers have no file called `n`. */
  lemma FollowedIsFirst(deps: Deps, x: string, r: Ref, order: seq<string>, n: string) returns (e: nat)
    requires Followed(deps, x, r, order) && Finished(deps, order)
    requires forall y :: y in order ==> !HasFile(deps, y, n)
    ensures FirstEdge(deps, x, e, r, n)
  {
    hide Finished, HasFile, Reaches;
    e :| Following(deps, x, e, r, order);
    forall k | 0 <= k < e
      ensures !InClosure(deps, deps[x].dependencies[k].name, n)
    {
      FinishedResolvable(deps, order, deps[x].dependencies[k].name);
    }
  }

  lemma FollowedAt(deps: Deps, root: string, refs: seq<Ref>, order: seq<string>, i: nat)
    requires OnTheWay(deps, root, refs, order) && i < |refs|
    ensures Followed(deps, Stop(root, refs, i), refs[i], order) && Stop(root, refs, i + 1) == refs[i].name
  {
  }

  /** A name that neither the providers on the way nor the finished ones have, is first met here. */
  lemma {:induction false} FirstMet(deps: Deps, root: string, refs: seq<Ref>, order: seq<string>, n: string, i: nat)
    requires i <= |refs| && OnTheWay(deps, root, refs, order) && Finished(deps, order)
    requires forall j :: 0 <= j < |refs| ==> !HasFile(deps, Stop(root, refs, j), n)
    requires forall y :: y in order ==> !HasFile(deps, y, n)
    requires HasFile(deps, Stop(root, refs, |refs|), n)
    ensures FirstRoute(deps, Stop(root, refs, i), refs[i..], n)
    decreases |refs| - i
  {
    hide Finished, HasFile, Followed, FirstRoute, FirstEdge, OnTheWay, Stop;
    if i < |refs| {
      FollowedAt(deps, root, refs, order, i);
      var e := FollowedIsFirst(deps, Stop(root, refs, i), refs[i], order, n);
      FirstMet(deps, root, refs, order, n, i + 1);
      FirstRouteStep(deps, Stop(root, refs, i), e, refs[i], refs[i + 1..], n);
      assert refs[i..] == [refs[i]] + refs[i + 1..];
    } else {
      FirstRouteHere(deps, Stop(root, refs, i), n);
      assert refs[i..] == [];
    }
  }

  /** The search has entered the providers in `trail` and not left them; those in `order` are finished. */
  ghost predicate Searching(deps: Deps, root: string, trail: seq<string>, stack: set<string>, visited: set<string>, order: seq<string>) {
    && (forall x :: x in stack <==> x in trail)
    && (forall x :: x in visited <==> x in stack || x in order)
    && (forall x :: x in trail ==> x !in order)
    && Finished(deps, order)
    && (forall x :: x in visited ==> x in deps && Reaches(deps, root, x))
  }

  lemma Enter(deps: Deps, root: string, trail: seq<string>, stack: set<string>, visited: set<string>, order: seq<string>, name: string)
    requires Searching(deps, root, trail, stack, visited, order) && name !in visited && name in deps && Reaches(deps, root, name)
    ensures Searching(deps, root, trail + [name], stack + {name}, visited + {name}, order)
  {
    hide Finished, Reaches;
  }

  lemma Leave(deps: Deps, root: string, trail: seq<string>, stack: set<string>, visited: set<string>, order: seq<string>, name: string)
    requires Searching(deps, root, trail + [name], stack, visited, order) && name !in trail
    requires name in deps && forall e :: 0 <= e < |deps[name].dependencies| ==> deps[name].dependencies[e].name in order
    ensures Searching(deps, root, trail, stack - {name}, visited, order + [name])
  {
    hide Reaches;
    assert name in trail + [name];
    forall x
      ensures x in trail + [name] <==> x in trail || x == name
      ensures x in order + [name] <==> x in order || x == name
    {
    }
    var order' := order + [name];
    forall k, y | 0 <= k < |order'| && Edge(deps, order'[k], y)
      ensures y in order'[..k]
    {
      if k < |order| {
        assert order'[..k] == order[..k];
      } else {
        assert order'[..k] == order;
      }
    }
  }

  // ----- The order of the files.

  /** The first `s` comes behind some `r`. */
  ghost predicate ComesBefore<T>(l: seq<T>, r: T, s: T) {
    exists j :: 0 <= j < |l| && l[j] == s && s !in l[..j] && r in l[..j]
  }

  /** Of two routes from `x`, `a` comes first: where they part, its edge is listed first, or it ends there. */
  ghost predicate Sooner(deps: Deps, x: string, a: seq<Ref>, b: seq<Ref>)
    decreases |a|
  {
    if a == [] then b != []
    else
      && b != []
      && if a[0] == b[0] then Sooner(deps, a[0].name, a[1..], b[1..])
         else x in deps && ComesBefore(deps[x].dependencies, a[0], b[0])
  }

  /** The files `f`, at the end of route `a`, and `g`, at the end of route `b`. */
  ghost predicate FileBefore(deps: Deps, root: string, a: seq<Ref>, f: File, b: seq<Ref>, g: File) {
    Sooner(deps, root, a, b)
    || (a == b && Stop(root, a, |a|) in deps && ComesBefore(deps[Stop(root, a, |a|)].files, f, g))
  }

  ghost predicate InOrder(deps: Deps, root: string, f: File, g: File) {
    exists a, f', b, g' :: GatedBy(deps, root, f, a, f') && GatedBy(deps, root, g, b, g') && FileBefore(deps, root, a, f', b, g')
  }

  /** The route of `g` goes on from `refs` by one of the first `k` edges, or not at all. */
  ghost predicate Below(deps: Deps, root: string, refs: seq<Ref>, k: nat, g: File, ext: seq<Ref>, f: File) {
    && GatedBy(deps, root, g, refs + ext, f)
    && (ext == [] || (Stop(root, refs, |refs|) in deps && k <= |deps[Stop(root, refs, |refs|)].dependencies|
                      && ext[0] in deps[Stop(root, refs, |refs|)].dependencies[..k]))
  }

  ghost predicate SomewhereBelow(deps: Deps, root: string, refs: seq<Ref>, k: nat, g: File) {
    exists ext, f :: Below(deps, root, refs, k, g, ext, f)
  }

  /** What has been added to `before` lies below `refs`, in order. */
  ghost predicate AddedBelow(deps: Deps, root: string, refs: seq<Ref>, k: nat, before: seq<File>, files: seq<File>) {
    && before <= files && (forall i :: |before| <= i < |files| ==> SomewhereBelow(deps, root, refs, k, files[i]))
    && forall i, j :: |before| <= i < j < |files| ==> InOrder(deps, root, files[i], files[j])
  }

  lemma {:induction false} SoonerOn(deps: Deps, root: string, refs: seq<Ref>, a: seq<Ref>, b: seq<Ref>)
    requires Sooner(deps, Stop(root, refs, |refs|), a, b)
    ensures Sooner(deps, root, refs + a, refs + b)
    decreases |refs|
  {
    if refs == [] {
      assert refs + a == a && refs + b == b;
    } else {
      var k := |refs| - 1;
      assert [refs[k]] + a != [] && ([refs[k]] + a)[1..] == a && ([refs[k]] + b)[1..] == b;
      assert Sooner(deps, Stop(root, refs[..k], k), [refs[k]] + a, [refs[k]] + b);
      SoonerOn(deps, root, refs[..k], [refs[k]] + a, [refs[k]] + b);
      assert refs[..k] + ([refs[k]] + a) == refs + a && refs[..k] + ([refs[k]] + b) == refs + b;
    }
  }

  /** What lies below an edge comes behind what lies below the edges before it. */
  lemma EdgesInOrder(deps: Deps, root: string, refs: seq<Ref>, j: nat, f: File, g: File)
    requires Stop(root, refs, |refs|) in deps && j < |deps[Stop(root, refs, |refs|)].dependencies|
    requires var l := deps[Stop(root, refs, |refs|)].dependencies;
             l[j] !in l[..j] && SomewhereBelow(deps, root, refs, j, f)
             && exists k :: SomewhereBelow(deps, root, refs + [l[j]], k, g)
    ensures InOrder(deps, root, f, g)
  {
    hide GatedBy, Stop;
    var l := deps[Stop(root, refs, |refs|)].dependencies;
    var a, f' :| Below(deps, root, refs, j, f, a, f');
    var k: nat :| SomewhereBelow(deps, root, refs + [l[j]], k, g);
    var b, g' :| Below(deps, root, refs + [l[j]], k, g, b, g');
    assert refs + [l[j]] + b == refs + ([l[j]] + b);
    if a != [] {
      assert ComesBefore(l, a[0], l[j]);
    }
    assert Sooner(deps, Stop(root, refs, |refs|), a, [l[j]] + b);
    SoonerOn(deps, root, refs, a, [l[j]] + b);
    assert FileBefore(deps, root, refs + a, f', refs + ([l[j]] + b), g');
  }

  lemma BelowEdge(deps: Deps, root: string, refs: seq<Ref>, j: nat, k: nat, g: File)
    requires Stop(root, refs, |refs|) in deps && j < |deps[Stop(root, refs, |refs|)].dependencies|
    requires SomewhereBelow(deps, root, refs + [deps[Stop(root, refs, |refs|)].dependencies[j]], k, g)
    ensures SomewhereBelow(deps, root, refs, j + 1, g)
  {
    hide GatedBy, Stop;
    var l := deps[Stop(root, refs, |refs|)].dependencies;
    var b, f :| Below(deps, root, refs + [l[j]], k, g, b, f);
    assert refs + [l[j]] + b == refs + ([l[j]] + b);
    assert l[..j + 1][j] == l[j];
    assert Below(deps, root, refs, j + 1, g, [l[j]] + b, f);
  }

  lemma BelowMore(deps: Deps, root: string, refs: seq<Ref>, j: nat, g: File)
    requires Stop(root, refs, |refs|) in deps && j < |deps[Stop(root, refs, |refs|)].dependencies|
    requires SomewhereBelow(deps, root, refs, j, g)
    ensures SomewhereBelow(deps, root, refs, j + 1, g)
  {
    hide GatedBy, Stop;
    var l := deps[Stop(root, refs, |refs|)].dependencies;
    var b, f :| Below(deps, root, refs, j, g, b, f);
    assert l[..j + 1][..j] == l[..j];
    assert b != [] ==> b[0] in l[..j + 1];
    assert Below(deps, root, refs, j + 1, g, b, f);
  }

  /** One more edge has been followed: by it files were added only if it was not listed before. */
  lemma EdgeAdded(deps: Deps, root: string, refs: seq<Ref>, j: nat, before: seq<File>, files: seq<File>, files': seq<File>, k: nat)
    requires Stop(root, refs, |refs|) in deps && j < |deps[Stop(root, refs, |refs|)].dependencies|
    requires AddedBelow(deps, root, refs, j, before, files)
    requires var l := deps[Stop(root, refs, |refs|)].dependencies;
             AddedBelow(deps, root, refs + [l[j]], k, files, files') && (l[j] in l[..j] ==> files' == files)
    ensures AddedBelow(deps, root, refs, j + 1, before, files')
  {
    hide SomewhereBelow, InOrder, Stop;
    var l := deps[Stop(root, refs, |refs|)].dependencies;
    forall i | |before| <= i < |files'|
      ensures SomewhereBelow(deps, root, refs, j + 1, files'[i])
    {
      if i < |files| {
        BelowMore(deps, root, refs, j, files[i]);
      } else {
        BelowEdge(deps, root, refs, j, k, files'[i]);
      }
    }
    forall h, i | |before| <= h < i < |files'|
      ensures InOrder(deps, root, files'[h], files'[i])
    {
      if h < |files| <= i {
        EdgesInOrder(deps, root, refs, j, files[h], files'[i]);
      } else if i < |files| {
        assert InOrder(deps, root, files[h], files[i]);
      }
    }
  }

  /** The files of one provider, up to `files[i]`. */
  ghost predicate AddedHere(deps: Deps, root: string, refs: seq<Ref>, i: nat, before: seq<File>, files: seq<File>) {
    && before <= files && Stop(root, refs, |refs|) in deps && i <= |deps[Stop(root, refs, |refs|)].files|
    && (forall k :: |before| <= k < |files| ==> HereAt(deps, root, refs, i, files[k]))
    && forall h, k :: |before| <= h < k < |files| ==> InOrder(deps, root, files[h], files[k])
  }

  ghost predicate HereAt(deps: Deps, root: string, refs: seq<Ref>, i: nat, g: File)
    requires Stop(root, refs, |refs|) in deps && i <= |deps[Stop(root, refs, |refs|)].files|
  {
    exists f :: f in deps[Stop(root, refs, |refs|)].files[..i] && GatedBy(deps, root, g, refs, f)
  }

  lemma HereMore(deps: Deps, root: string, refs: seq<Ref>, i: nat, before: seq<File>, files: seq<File>)
    requires AddedHere(deps, root, refs, i, before, files) && i < |deps[Stop(root, refs, |refs|)].files|
    ensures AddedHere(deps, root, refs, i + 1, before, files)
  {
    hide InOrder, GatedBy, Stop;
    var l := deps[Stop(root, refs, |refs|)].files;
    forall k | |before| <= k < |files|
      ensures HereAt(deps, root, refs, i + 1, files[k])
    {
      var f :| f in l[..i] && GatedBy(deps, root, files[k], refs, f);
      assert l[..i + 1][..i] == l[..i];
      assert f in l[..i + 1];
    }
  }

  lemma HerePush(deps: Deps, root: string, refs: seq<Ref>, i: nat, before: seq<File>, files: seq<File>, g: File)
    requires AddedHere(deps, root, refs, i, before, files) && i < |deps[Stop(root, refs, |refs|)].files|
    requires var f := deps[Stop(root, refs, |refs|)].files[i];
             GatedBy(deps, root, g, refs, f) && !Listed(deps[Stop(root, refs, |refs|)].files[..i], f.name)
    ensures AddedHere(deps, root, refs, i + 1, before, files + [g])
  {
    hide InOrder, GatedBy, Stop;
    var l := deps[Stop(root, refs, |refs|)].files;
    HereMore(deps, root, refs, i, before, files);
    assert l[..i + 1][i] == l[i];
    forall k | |before| <= k < |files|
      ensures InOrder(deps, root, files[k], g)
    {
      var f :| f in l[..i] && GatedBy(deps, root, files[k], refs, f);
      assert l[i] !in l[..i];
      FileThenFile(deps, root, refs, files[k], f, g, l[i]);
    }
  }

  lemma FileThenFile(deps: Deps, root: string, refs: seq<Ref>, f: File, f': File, g: File, g': File)
    requires GatedBy(deps, root, f, refs, f') && GatedBy(deps, root, g, refs, g')
    requires Stop(root, refs, |refs|) in deps && ComesBefore(deps[Stop(root, refs, |refs|)].files, f', g')
    ensures InOrder(deps, root, f, g)
  {
    hide GatedBy, Stop, ComesBefore, Sooner;
    assert FileBefore(deps, root, refs, f', refs, g');
  }

  lemma HereIsBelow(deps: Deps, root: string, refs: seq<Ref>, i: nat, before: seq<File>, files: seq<File>)
    requires AddedHere(deps, root, refs, i, before, files)
    ensures AddedBelow(deps, root, refs, 0, before, files)
  {
    hide InOrder, GatedBy, Stop;
    forall k | |before| <= k < |files|
      ensures SomewhereBelow(deps, root, refs, 0, files[k])
    {
      var f :| f in deps[Stop(root, refs, |refs|)].files[..i] && GatedBy(deps, root, files[k], refs, f);
      assert refs + [] == refs;
      assert Below(deps, root, refs, 0, files[k], [], f);
    }
  }

  class Collector {
    var collected: seq<File>
    var visited: set<string>
    var stack: set<string>
    ghost var order: seq<string>

    constructor ()
      ensures collected == [] && visited == {} && stack == {} && order == []
    {
      collected, visited, stack, order := [], {}, {}, [];
    }

    ghost predicate Valid(deps: Deps, root: string, trail: seq<string>)
      reads this
    {
      && Searching(deps, root, trail, stack, visited, order)
      && AllGated(deps, root, collected) && Covers(deps, visited, collected)
    }

    /** Adds those files of provider `name` whose names are new. */
    method AddFiles(deps: Deps, name: string, inherited: Condition, ghost root: string, ghost refs: seq<Ref>)
      requires name in deps && Route(deps, root, refs) && Stop(root, refs, |refs|) == name && inherited == Inherited(refs)
      requires forall n :: HasFile(deps, name, n) && !Listed(collected, n) ==> FirstRoute(deps, root, refs, n)
      requires AllGated(deps, root, collected)
      modifies this`collected
      ensures AllGated(deps, root, collected)
      ensures forall n :: Listed(collected, n) <==> Listed(old(collected), n) || HasFile(deps, name, n)
      ensures AddedBelow(deps, root, refs, 0, old(collected), collected)
    {
      hide Combined, Route, Inherited, Stop, FirstRoute, InOrder, HereAt;
      var files := deps[name].files;
      var i := 0;
      while i < |files|
        invariant 0 <= i <= |files| && AllGated(deps, root, collected)
        invariant forall n :: Listed(collected, n) <==> Listed(old(collected), n) || Listed(files[..i], n)
        invariant AddedHere(deps, root, refs, i, old(collected), collected)
      {
        var f := files[i];
        ListedPush(files, i);
        HereMore(deps, root, refs, i, old(collected), collected);
        if !Listed(collected, f.name) {
          var gated := CombineConditions(inherited, f.condition);
          assert HasFile(deps, name, f.name) && !Listed(old(collected), f.name);
          assert FirstNamed(files, f);
          assert GatedBy(deps, root, File(f.name, f.path, gated), refs, f);
          ListedAppend(collected, File(f.name, f.path, gated));
          HerePush(deps, root, refs, i, old(collected), collected, File(f.name, f.path, gated));
          collected := collected + [File(f.name, f.path, gated)];
        }
        i := i + 1;
      }
      assert files[..i] == files;
      HereIsBelow(deps, root, refs, i, old(collected), collected);
    }

    lemma NewNames(deps: Deps, root: string, refs: seq<Ref>, name: string)
      requires Stop(root, refs, |refs|) == name && OnTheWay(deps, root, refs, order)
      requires Valid(deps, root, Stops(root, refs)[..|refs|])
      ensures forall n :: HasFile(deps, name, n) && !Listed(collected, n) ==> FirstRoute(deps, root, refs, n)
    {
      hide Finished, Reaches, HasFile, Listed, OnTheWay, FirstRoute, AllGated;
      forall n | HasFile(deps, name, n) && !Listed(collected, n)
        ensures FirstRoute(deps, root, refs, n)
      {
        forall j | 0 <= j < |refs|
          ensures !HasFile(deps, Stop(root, refs, j), n)
        {
          assert Stops(root, refs)[..|refs|][j] == Stop(root, refs, j);
          assert Stop(root, refs, j) in visited;
        }
        FirstMet(deps, root, refs, order, n, 0);
        assert refs[0..] == refs;
      }
    }

    /** CollectExtraDependencies: depth first, with the providers entered on a stack and those seen in a set.  It
        succeeds only if the provider and all it needs get finished, and fails only if the root cannot be resolved. */
    method Collect(deps: Deps, name: string, inherited: Condition, ghost root: string, ghost refs: seq<Ref>) returns (ok: bool)
      requires Route(deps, root, refs) && Stop(root, refs, |refs|) == name && inherited == Inherited(refs)
      requires Valid(deps, root, Stops(root, refs)[..|refs|]) && OnTheWay(deps, root, refs, order)
      modifies this
      ensures ok ==> Valid(deps, root, Stops(root, refs)[..|refs|]) && name in order && old(visited) <= visited
      ensures ok ==> forall x :: x in old(order) ==> x in order
      ensures ok && name in old(visited) ==> collected == old(collected)
      ensures ok ==> name in deps && AddedBelow(deps, root, refs, |deps[name].dependencies|, old(collected), collected)
      ensures !ok ==> !Resolvable(deps, root)
      decreases deps.Keys - visited
    {
      hide Combined, Route, Inherited, Stop, Stops, Finished, Reaches, Resolvable, AllGated, FirstRoute, OnTheWay,
           HasFile, Listed, InOrder, SomewhereBelow;
      ghost var trail := Stops(root, refs)[..|refs|];
      RouteTrail(deps, root, refs, name);
      if name in stack {
        return false;
      }
      if name in visited {
        return true;
      }
      if name !in deps {
        return false;
      }
      NewNames(deps, root, refs, name);
      Enter(deps, root, trail, stack, visited, order, name);
      stack := stack + {name};
      visited := visited + {name};
      AddFiles(deps, name, inherited, root, refs);
      var dependencies := deps[name].dependencies;
      var j := 0;
      while j < |dependencies|
        invariant 0 <= j <= |dependencies|
        invariant Valid(deps, root, trail + [name]) && old(visited) + {name} <= visited
        invariant forall x :: x in old(order) ==> x in order
        invariant forall k :: 0 <= k < j ==> dependencies[k].name in order
        invariant AddedBelow(deps, root, refs, j, old(collected), collected)
      {
        var dep := dependencies[j];
        ghost var files := collected;
        OnTheWayMono(deps, root, refs, old(order), order);
        OnTheWayNext(deps, root, refs, order, j, dep);
        RouteOn(deps, root, refs, dep);
        InheritedOn(refs, dep);
        StopAtEnd(root, refs, dep);
        RouteTrail(deps, root, refs + [dep], dep.name);
        StopsOn(root, refs, dep);
        if dep.name in deps {
          var edgeCondition := CombineConditions(inherited, dep.condition);
          var found := Collect(deps, dep.name, edgeCondition, root, refs + [dep]);
          if !found { return false; }
          EdgeAdded(deps, root, refs, j, old(collected), files, collected, |deps[dep.name].dependencies|);
        } else {
          return false;
        }
        j := j + 1;
      }
      Leave(deps, root, trail, stack, visited, order, name);
      stack := stack - {name};
      order := order + [name];
      ok := true;
    }
  }

  lemma StopAtEnd(root: string, refs: seq<Ref>, r: Ref)
    ensures Stop(root, refs + [r], |refs + [r]|) == r.name
  {
  }

  /** A route that leads to a missing name or back to its own trail shows that the root cannot be resolved. */
  lemma RouteTrail(deps: Deps, root: string, refs: seq<Ref>, name: string)
    requires Route(deps, root, refs) && Stop(root, refs, |refs|) == name
    ensures Stops(root, refs) == Stops(root, refs)[..|refs|] + [name]
    ensures Reaches(deps, root, name)
    ensures name in Stops(root, refs)[..|refs|] || name !in deps ==> !Resolvable(deps, root)
  {
    RouteWalks(deps, root, refs);
    var p := Stops(root, refs);
    assert p[0] == root && p[|p| - 1] == name;
    assert name in p[..|refs|] || name !in deps ==> Stuck(deps, p);
  }

  lemma ListedPush(files: seq<File>, i: nat)
    requires i < |files|
    ensures forall n :: Listed(files[..i + 1], n) <==> Listed(files[..i], n) || n == files[i].name
  {
    assert files[..i + 1] == files[..i] + [files[i]];
    ListedAppend(files[..i], files[i]);
  }

  lemma ListedAppend(files: seq<File>, g: File)
    ensures forall n :: Listed(files + [g], n) <==> Listed(files, n) || n == g.name
  {
    forall n
      ensures Listed(files + [g], n) <==> Listed(files, n) || n == g.name
    {
      if Listed(files, n) {
        var i :| 0 <= i < |files| && files[i].name == n;
        assert (files + [g])[i].name == n;
      }
      if n == g.name {
        assert (files + [g])[|files|].name == n;
      }
    }
  }

  /** A search from the beginning: it succeeds exactly if the provider can be resolved, and then has collected a file
      for every file name of every provider reached, the provider itself included. */
  method CollectAll(deps: Deps, name: string) returns (ok: bool, files: seq<File>)
    ensures ok <==> Resolvable(deps, name)
    ensures ok ==> AllGated(deps, name, files)
    ensures ok ==> forall n :: Listed(files, n) <==> exists y :: Reaches(deps, name, y) && HasFile(deps, y, n)
    ensures ok ==> forall i, j :: 0 <= i < j < |files| ==> InOrder(deps, name, files[i], files[j])
  {
    hide Finished, Reaches, Resolvable, AllGated, HasFile, Listed, InOrder;
    var c := new Collector();
    NothingYet(deps, name, c.collected);
    ok := c.Collect(deps, name, [], name, []);
    files := c.collected;
    if ok {
      FinishedResolvable(deps, c.order, name);
      assert forall y :: Reaches(deps, name, y) <==> y in c.visited;
    }
  }

  lemma NothingYet(deps: Deps, root: string, files: seq<File>)
    requires files == []
    ensures Searching(deps, root, Stops(root, [])[..0], {}, {}, []) && AllGated(deps, root, files) && Covers(deps, {}, files)
    ensures Route(deps, root, []) && Stop(root, [], 0) == root && Inherited([]) == []
  {
  }
}
