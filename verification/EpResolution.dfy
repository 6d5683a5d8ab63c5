/** What every provider ends up with: its entry is extended in place by the files of all providers it reaches, and a
    configuration then selects among them.
 */
module EpResolution {
  import opened EpConditions
  import opened EpDependencies
  import opened EpImplication
  import opened EpMatching

  // ----- Extending the entries.

  /** Of the first `n` extra files, those with these indices have been added: the first of every new name, in order. */
  ghost predicate AddedAt(files: seq<File>, own: seq<File>, extra: seq<File>, n: nat, idx: seq<nat>) {
    && n <= |extra| && Ascending(idx) && (forall k :: 0 <= k < |idx| ==> idx[k] < n)
    && (forall i :: 0 <= i < n ==> (i in idx <==> !Listed(own, extra[i].name) && !Listed(extra[..i], extra[i].name)))
    && |files| == |own| + |idx| && own <= files && forall k :: 0 <= k < |idx| ==> files[|own| + k] == extra[idx[k]]
  }

  lemma AddedNothing(own: seq<File>, extra: seq<File>)
    ensures AddedAt(own, own, extra, 0, [])
  {
  }

  lemma AddedNoMore(files: seq<File>, own: seq<File>, extra: seq<File>, i: nat, idx: seq<nat>)
    requires AddedAt(files, own, extra, i, idx) && i < |extra|
    requires Listed(own, extra[i].name) || Listed(extra[..i], extra[i].name)
    ensures AddedAt(files, own, extra, i + 1, idx)
  {
    hide Listed;
  }

  lemma AddedOne(files: seq<File>, own: seq<File>, extra: seq<File>, i: nat, idx: seq<nat>)
    requires AddedAt(files, own, extra, i, idx) && i < |extra|
    requires !Listed(own, extra[i].name) && !Listed(extra[..i], extra[i].name)
    ensures AddedAt(files + [extra[i]], own, extra, i + 1, idx + [i])
  {
    hide Listed;
    forall k | 0 <= k < |idx|
      ensures idx[k] < i
    {
    }
    AscendingPush(idx, i);
  }

  /** AddExtraFiles: appends the files whose names are new; an entry's own files come first and stay as they are. */
  method AddExtraFiles(entry: Entry, extra: seq<File>) returns (r: Entry)
    ensures r.name == entry.name && r.dependencies == entry.dependencies && entry.files <= r.files
    ensures forall n :: Listed(r.files, n) <==> Listed(entry.files, n) || Listed(extra, n)
    ensures forall k :: |entry.files| <= k < |r.files| ==> r.files[k] in extra
    ensures forall k :: |entry.files| <= k < |r.files| ==> !Listed(entry.files, r.files[k].name)
    ensures NoDoubles(entry.files) ==> NoDoubles(r.files)
    ensures exists idx :: AddedAt(r.files, entry.files, extra, |extra|, idx)
  {
    hide AddedAt, Ascending;
    var files := entry.files;
    ghost var idx: seq<nat> := [];
    AddedNothing(entry.files, extra);
    var i := 0;
    while i < |extra|
      invariant 0 <= i <= |extra| && entry.files <= files
      invariant forall n :: Listed(files, n) <==> Listed(entry.files, n) || Listed(extra[..i], n)
      invariant forall k :: |entry.files| <= k < |files| ==> files[k] in extra
      invariant forall k :: |entry.files| <= k < |files| ==> !Listed(entry.files, files[k].name)
      invariant NoDoubles(entry.files) ==> NoDoubles(files)
      invariant AddedAt(files, entry.files, extra, i, idx)
    {
      ListedPush(extra, i);
      if !Listed(files, extra[i].name) {
        AddedOne(files, entry.files, extra, i, idx);
        idx := idx + [i];
        ListedAppend(files, extra[i]);
        files := files + [extra[i]];
      } else {
        AddedNoMore(files, entry.files, extra, i, idx);
      }
      i := i + 1;
    }
    assert extra[..i] == extra;
    r := entry.(files := files);
  }

  // ----- The whole configuration.

  /** The entries by name; a later entry replaces an earlier one. */
  function Inserted(deps: Deps, entries: seq<Entry>): Deps {
    if entries == [] then deps
    else
      var e := entries[|entries| - 1];
      Inserted(deps, entries[..|entries| - 1])[e.name := e]
  }

  /** `deps` is `g` with some entries extended, by no more than they should get in the end. */
  ghost predicate Extended(g: Deps, deps: Deps) {
    && deps.Keys == g.Keys
    && (forall x :: x in g ==> deps[x].dependencies == g[x].dependencies && g[x].files <= deps[x].files)
    && (forall x, n :: HasFile(deps, x, n) ==> InClosure(g, x, n))
  }

  lemma SameEdges(g: Deps, deps: Deps)
    requires deps.Keys == g.Keys && forall x :: x in g ==> deps[x].dependencies == g[x].dependencies
    ensures forall x, y :: Edge(deps, x, y) <==> Edge(g, x, y)
    ensures forall x, y :: Reaches(deps, x, y) <==> Reaches(g, x, y)
    ensures forall x :: Resolvable(deps, x) <==> Resolvable(g, x)
  {
    assert forall x, y :: Edge(deps, x, y) <==> Edge(g, x, y);
    assert forall p :: Walk(deps, p) <==> Walk(g, p);
    assert forall p :: Stuck(deps, p) <==> Stuck(g, p);
  }

  /** Collecting over entries some of which have already been extended gives the same names. */
  lemma ClosureOfExtended(g: Deps, deps: Deps, x: string, n: string)
    requires Extended(g, deps)
    ensures (exists y :: Reaches(deps, x, y) && HasFile(deps, y, n)) <==> InClosure(g, x, n)
  {
    SameEdges(g, deps);
    hide Reaches;
    if y :| Reaches(deps, x, y) && HasFile(deps, y, n) {
      var z :| Reaches(g, y, z) && HasFile(g, z, n);
      ReachesTrans(g, x, y, z);
    }
    if InClosure(g, x, n) {
      var y :| Reaches(g, x, y) && HasFile(g, y, n);
      PrefixListed(g[y].files, deps[y].files, n);
      assert Reaches(deps, x, y) && HasFile(deps, y, n);
    }
  }

  lemma PrefixListed(s: seq<File>, t: seq<File>, n: string)
    requires s <= t && Listed(s, n)
    ensures Listed(t, n)
  {
    var i :| 0 <= i < |s| && s[i].name == n;
    assert t[i].name == n;
  }

  lemma ExtendStart(g: Deps)
    ensures Extended(g, g)
  {
    forall x, n | HasFile(g, x, n)
      ensures InClosure(g, x, n)
    {
      ReachesSelf(g, x);
    }
  }

  /** Provider `x` has the file names of all it reaches. */
  ghost predicate Complete(g: Deps, deps: Deps, x: string) {
    forall n :: HasFile(deps, x, n) <==> InClosure(g, x, n)
  }

  lemma ExtendOne(g: Deps, deps: Deps, x: string, files: seq<File>, r: Entry)
    requires Extended(g, deps) && x in deps && r.dependencies == deps[x].dependencies && deps[x].files <= r.files
    requires forall n :: Listed(files, n) <==> exists y :: Reaches(deps, x, y) && HasFile(deps, y, n)
    requires forall n :: Listed(r.files, n) <==> Listed(deps[x].files, n) || Listed(files, n)
    ensures Extended(g, deps[x := r]) && Complete(g, deps[x := r], x)
    ensures forall z :: z != x && Complete(g, deps, z) ==> Complete(g, deps[x := r], z)
  {
    hide Reaches, InClosure, Listed;
    forall n
      ensures Listed(files, n) <==> InClosure(g, x, n)
    {
      ClosureOfExtended(g, deps, x, n);
    }
    forall z, n | z != x
      ensures HasFile(deps[x := r], z, n) <==> HasFile(deps, z, n)
    {
    }
    forall n
      ensures HasFile(deps[x := r], x, n) <==> InClosure(g, x, n)
    {
      assert HasFile(deps, x, n) <==> Listed(deps[x].files, n);
    }
  }

  // ----- What the conditions in the extended entries mean.

  /** What has to hold for file `f` at the end of route `refs`. */
  ghost predicate Required(refs: seq<Ref>, f: File, config: Json) {
    AllMatch(refs, config) && Matches(f.condition, config)
  }

  /** The route with the file's own condition as a last edge. */
  function WithFile(refs: seq<Ref>, f: File): seq<Ref> {
    refs + [Ref("", f.condition)]
  }

  /** What is required can be met exactly if no combination along the route and with the file's condition comes out empty,
      and is then what the combined condition says. */
  lemma RequiredExact(refs: seq<Ref>, f: File)
    requires Plain(refs) && PlainCondition(f.condition)
    ensures NothingDropped(WithFile(refs, f)) <==> exists config :: Required(refs, f, config)
    ensures NothingDropped(WithFile(refs, f)) ==>
              forall config :: Required(refs, f, config) <==> Matches(Inherited(WithFile(refs, f)), config)
  {
    hide Matches, PlainCondition, Inherited, NothingDropped;
    var all := WithFile(refs, f);
    NothingDroppedExact(all);
    forall config
      ensures AllMatch(all, config) <==> Required(refs, f, config)
    {
      MatchJoin(refs, [Ref("", f.condition)], config);
      MatchOne(Ref("", f.condition), config);
    }
    if NothingDropped(all) {
      InheritedPlain(all);
      var config := SomeConfig(Inherited(all));
      assert Required(refs, f, config);
    } else if config :| Required(refs, f, config) {
      DroppedNeverMatches(all, config);
    }
  }

  ghost predicate Means(c: Condition, refs: seq<Ref>, f: File) {
    forall config :: Matches(c, config) <==> Required(refs, f, config)
  }

  ghost predicate PlainDeps(g: Deps) {
    forall x :: x in g ==>
      && (forall i :: 0 <= i < |g[x].files| ==> PlainCondition(g[x].files[i].condition))
      && (forall i :: 0 <= i < |g[x].dependencies| ==> PlainCondition(g[x].dependencies[i].condition))
  }

  /** File `h` is the file meant by its name; with lower-case, non-empty value lists its condition means what is required
      on the route to it, exactly if some configuration meets that. */
  ghost predicate StandsFor(g: Deps, x: string, h: File, refs: seq<Ref>, f: File) {
    && Meant(g, x, refs, f) && h.name == f.name && h.path == f.path
    && (PlainDeps(g) ==> PlainCondition(h.condition) && ((exists config :: Required(refs, f, config)) <==> Means(h.condition, refs, f)))
  }

  ghost predicate FromRoute(g: Deps, x: string, h: File) {
    exists refs, f :: StandsFor(g, x, h, refs, f)
  }

  /** All files that were added to entries are meant to be there. */
  ghost predicate Faithful(g: Deps, deps: Deps) {
    forall x, k :: x in g && x in deps && |g[x].files| <= k < |deps[x].files| ==>
      !Listed(g[x].files, deps[x].files[k].name) && FromRoute(g, x, deps[x].files[k])
  }

  /** A file of an entry, extended or not, that is the first of its name there. */
  lemma FirstOfEntry(g: Deps, deps: Deps, y: string, f: File)
    requires Extended(g, deps) && Faithful(g, deps) && y in deps && FirstNamed(deps[y].files, f)
    ensures FromRoute(g, y, f)
  {
    hide FromRoute, FirstRoute, Required, PlainDeps, Plain, PlainCondition, InClosure, Means;
    var k :| 0 <= k < |deps[y].files| && deps[y].files[k] == f && !Listed(deps[y].files[..k], f.name);
    if k < |g[y].files| {
      assert g[y].files[..k] == deps[y].files[..k];
      OwnFile(g, y, f);
    }
  }

  lemma OwnFile(g: Deps, y: string, f: File)
    requires y in g && FirstNamed(g[y].files, f)
    ensures FromRoute(g, y, f)
  {
    hide Required, Means, Matches, LowerCase, NonEmptyCondition;
    FirstRouteHere(g, y, f.name);
    assert Meant(g, y, [], f);
    if PlainDeps(g) {
      assert PlainCondition(f.condition);
      OwnMeaning(f);
    }
    assert StandsFor(g, y, f, [], f);
  }

  lemma OwnMeaning(f: File)
    requires PlainCondition(f.condition)
    ensures Means(f.condition, [], f) && exists config :: Required([], f, config)
  {
    hide Matches;
    var config := Satisfiable(f.condition);
    assert Required([], f, config);
  }

  /** A first route in the extended entries, and from there one in the original entries, are one in the original ones. */
  lemma {:induction false} FirstRouteOnward(g: Deps, deps: Deps, x: string, refs: seq<Ref>, refs': seq<Ref>, n: string)
    requires Extended(g, deps) && FirstRoute(deps, x, refs, n) && FirstRoute(g, Stop(x, refs, |refs|), refs', n)
    ensures FirstRoute(g, x, refs + refs', n)
    decreases |refs|
  {
    hide HasFile, InClosure, Extended;
    if refs == [] {
      assert refs + refs' == refs';
    } else {
      var r := refs[0];
      var e :| FirstEdge(deps, x, e, r, n);
      FirstEdgeSame(g, deps, x, e, r, n);
      assert Stop(r.name, refs[1..], |refs| - 1) == Stop(x, refs, |refs|);
      FirstRouteOnward(g, deps, r.name, refs[1..], refs', n);
      NotListedBefore(g, deps, x, n);
      FirstRouteStep(g, x, e, r, refs[1..] + refs', n);
      assert refs + refs' == [r] + (refs[1..] + refs');
    }
  }

  lemma NotListedBefore(g: Deps, deps: Deps, x: string, n: string)
    requires Extended(g, deps) && !HasFile(deps, x, n)
    ensures !HasFile(g, x, n)
  {
    hide InClosure;
    if HasFile(g, x, n) {
      PrefixListed(g[x].files, deps[x].files, n);
    }
  }

  lemma FirstEdgeSame(g: Deps, deps: Deps, x: string, e: nat, r: Ref, n: string)
    requires Extended(g, deps) && FirstEdge(deps, x, e, r, n)
    ensures FirstEdge(g, x, e, r, n)
  {
    hide Reaches, HasFile;
    forall k | 0 <= k < e
      ensures !InClosure(g, g[x].dependencies[k].name, n)
    {
      ClosureOfExtended(g, deps, g[x].dependencies[k].name, n);
    }
  }

  lemma StopJoin(x: string, refs: seq<Ref>, refs': seq<Ref>, i: nat)
    requires i <= |refs| + |refs'|
    ensures Stop(x, refs + refs', i) == if i <= |refs| then Stop(x, refs, i) else Stop(Stop(x, refs, |refs|), refs', i - |refs|)
    ensures Stop(Stop(x, refs, |refs|), refs', 0) == Stop(x, refs, |refs|)
  {
  }

  lemma RouteAt(deps: Deps, x: string, refs: seq<Ref>, i: nat)
    requires Route(deps, x, refs) && i < |refs|
    ensures Stop(x, refs, i) in deps && refs[i] in deps[Stop(x, refs, i)].dependencies
  {
  }

  lemma RoutesJoin(g: Deps, deps: Deps, x: string, refs: seq<Ref>, refs': seq<Ref>)
    requires Extended(g, deps) && Route(deps, x, refs) && Route(g, Stop(x, refs, |refs|), refs')
    ensures Route(g, x, refs + refs') && Stop(x, refs + refs', |refs + refs'|) == Stop(Stop(x, refs, |refs|), refs', |refs'|)
  {
    hide InClosure, HasFile, Stop;
    var all := refs + refs';
    assert Route(g, x, all) by {
      forall i | 0 <= i < |all|
        ensures Stop(x, all, i) in g && all[i] in g[Stop(x, all, i)].dependencies
      {
        hide Route;
        StopJoin(x, refs, refs', i);
        if i < |refs| {
          RouteAt(deps, x, refs, i);
        } else {
          RouteAt(g, Stop(x, refs, |refs|), refs', i - |refs|);
        }
      }
    }
    StopJoin(x, refs, refs', |all|);
  }

  /** A collected file stands for the file that is meant in the original entries. */
  lemma CollectedStands(g: Deps, deps: Deps, x: string, h: File, refs: seq<Ref>, f: File, refs': seq<Ref>, f': File)
    requires Extended(g, deps) && GatedBy(deps, x, h, refs, f) && StandsFor(g, Stop(x, refs, |refs|), f, refs', f')
    ensures StandsFor(g, x, h, refs + refs', f')
  {
    hide FirstRoute, Required, PlainDeps, Means, FirstNamed, InClosure, HasFile, Combined, Inherited, PlainCondition,
         Route, Stop;
    FirstRouteOnward(g, deps, x, refs, refs', f.name);
    RoutesJoin(g, deps, x, refs, refs');
    if PlainDeps(g) {
      PlainRoute(g, deps, x, refs);
      MeaningOnward(refs, f, refs', f');
    }
  }

  lemma PlainRoute(g: Deps, deps: Deps, x: string, refs: seq<Ref>)
    requires Extended(g, deps) && PlainDeps(g) && Route(deps, x, refs)
    ensures Plain(refs)
  {
    hide PlainCondition, InClosure, HasFile, Stop;
  }

  lemma MeaningOnward(refs: seq<Ref>, f: File, refs': seq<Ref>, f': File)
    requires Plain(refs) && PlainCondition(f.condition)
    requires (exists config :: Required(refs', f', config)) <==> Means(f.condition, refs', f')
    ensures var c := Combined(Inherited(refs), f.condition);
            PlainCondition(c) && ((exists config :: Required(refs + refs', f', config)) <==> Means(c, refs + refs', f'))
  {
    hide Matches, Combined, PlainCondition, Inherited;
    var c, all := Combined(Inherited(refs), f.condition), refs + [Ref("", f.condition)];
    InheritedOn(refs, Ref("", f.condition));
    InheritedPlain(all);
    forall config
      ensures Required(refs + refs', f', config) <==> AllMatch(refs, config) && Required(refs', f', config)
      ensures AllMatch(all, config) <==> AllMatch(refs, config) && Matches(f.condition, config)
    {
      MatchJoin(refs, refs', config);
      MatchJoin(refs, [Ref("", f.condition)], config);
      MatchOne(Ref("", f.condition), config);
    }
    InheritedExact(all);
    if Means(c, refs + refs', f') {
      var config := SomeConfig(c);
      assert Required(refs + refs', f', config);
    }
    if config :| Required(refs + refs', f', config) {
      assert Required(refs', f', config);
      assert AllMatch(all, config);
    }
  }

  lemma SomeConfig(c: Condition) returns (config: Json)
    requires PlainCondition(c)
    ensures Matches(c, config)
  {
    config := Satisfiable(c);
  }

  lemma MatchOne(r: Ref, config: Json)
    ensures AllMatch([r], config) <==> Matches(r.condition, config)
  {
    hide Matches;
    assert [r][0] == r;
  }

  lemma MatchJoin(refs: seq<Ref>, refs': seq<Ref>, config: Json)
    ensures AllMatch(refs + refs', config) <==> AllMatch(refs, config) && AllMatch(refs', config)
  {
    hide Matches;
    if AllMatch(refs + refs', config) {
      forall i | 0 <= i < |refs'|
        ensures Matches(refs'[i].condition, config)
      {
        assert (refs + refs')[|refs| + i] == refs'[i];
      }
      forall i | 0 <= i < |refs|
        ensures Matches(refs[i].condition, config)
      {
        assert (refs + refs')[i] == refs[i];
      }
    }
  }

  lemma CollectedFaithful(g: Deps, deps: Deps, x: string, files: seq<File>)
    requires Extended(g, deps) && Faithful(g, deps) && AllGated(deps, x, files)
    ensures forall k :: 0 <= k < |files| ==> FromRoute(g, x, files[k])
  {
    hide Extended, Faithful, StandsFor, FirstRoute, FirstNamed, Route, Stop;
    forall k | 0 <= k < |files|
      ensures FromRoute(g, x, files[k])
    {
      assert Gated(deps, x, files[k]);
      var refs, f :| GatedBy(deps, x, files[k], refs, f);
      FirstOfEntry(g, deps, Stop(x, refs, |refs|), f);
      var refs', f' :| StandsFor(g, Stop(x, refs, |refs|), f, refs', f');
      CollectedStands(g, deps, x, files[k], refs, f, refs', f');
    }
  }

  lemma FaithfulStart(g: Deps)
    ensures Faithful(g, g)
  {
  }

  lemma FaithfulOne(g: Deps, deps: Deps, x: string, files: seq<File>, r: Entry)
    requires Extended(g, deps) && Faithful(g, deps) && AllGated(deps, x, files) && x in deps
    requires deps[x].files <= r.files
    requires forall k :: |deps[x].files| <= k < |r.files| ==> r.files[k] in files && !Listed(deps[x].files, r.files[k].name)
    ensures Faithful(g, deps[x := r])
  {
    hide FromRoute, AllGated, InClosure;
    CollectedFaithful(g, deps, x, files);
    forall k | |g[x].files| <= k < |r.files|
      ensures !Listed(g[x].files, r.files[k].name) && FromRoute(g, x, r.files[k])
    {
      if k < |deps[x].files| {
        assert r.files[k] == deps[x].files[k];
      } else {
        assert r.files[k] in files;
      }
    }
  }

  class Config {
    var deps: Deps
    var resolved: bool

    constructor ()
      ensures deps == map[] && !resolved
    {
      deps, resolved := map[], false;
    }

    /** from_json, from parsed entries: inserts them, then extends every entry in place, in any order.  Resolution
        succeeds exactly if no provider can reach a cycle or a missing name; then every provider has the file names
        of all providers it reaches, its own files first. */
    method FromEntries(entries: seq<Entry>)
      modifies this
      ensures var g := Inserted(old(deps), entries);
              && Extended(g, deps) && Faithful(g, deps)
              && (resolved <==> forall x :: x in g ==> Resolvable(g, x))
              && (resolved ==> forall x :: x in g ==> Complete(g, deps, x))
    {
      hide Complete, Extended, Resolvable, Faithful, AllGated;
      InsertEntries(entries);
      ghost var g := deps;
      ExtendStart(g);
      FaithfulStart(g);
      resolved := true;
      var rest := deps.Keys;
      while rest != {}
        invariant resolved && rest <= g.Keys && Extended(g, deps) && Faithful(g, deps)
        invariant forall x :: x in g && x !in rest ==> Complete(g, deps, x) && Resolvable(g, x)
        decreases |rest|
      {
        var name :| name in rest;
        rest := rest - {name};
        ExtendedGraph(g, deps);
        var ok, files := CollectAll(deps, name);
        if !ok {
          resolved := false;
          return;
        }
        var r := AddExtraFiles(deps[name], files);
        ExtendOne(g, deps, name, files, r);
        FaithfulOne(g, deps, name, files, r);
        deps := deps[name := r];
      }
    }

    method InsertEntries(entries: seq<Entry>)
      modifies this`deps
      ensures deps == Inserted(old(deps), entries)
    {
      var i := 0;
      while i < |entries|
        invariant 0 <= i <= |entries| && deps == Inserted(old(deps), entries[..i])
      {
        assert entries[..i + 1][..i] == entries[..i];
        deps := deps[entries[i].name := entries[i]];
        i := i + 1;
      }
      assert entries[..i] == entries;
    }
  }

  lemma ExtendedGraph(g: Deps, deps: Deps)
    requires Extended(g, deps)
    ensures deps.Keys == g.Keys && forall x :: Resolvable(deps, x) <==> Resolvable(g, x)
  {
    hide Reaches, Resolvable;
    SameEdges(g, deps);
  }

  // ----- Which files a configuration gets.

  /** A file is kept if it is unconditional or its condition matches one of the configurations. */
  predicate Kept(f: File, configs: seq<Json>) {
    f.condition == [] || exists i :: 0 <= i < |configs| && Matches(f.condition, configs[i])
  }

  function KeptFiles(files: seq<File>, configs: seq<Json>): (r: seq<File>)
    ensures forall f :: f in r <==> f in files && Kept(f, configs)
  {
    if files == [] then []
    else
      var f := files[|files| - 1];
      KeptFiles(files[..|files| - 1], configs) + if Kept(f, configs) then [f] else []
  }

  /** Unconditional, or required by one of the configurations. */
  ghost predicate Selected(f: File, configs: seq<Json>) {
    f.condition == [] || exists config :: config in configs && Meets(config, f.condition)
  }

  /** `out` are the selected files, in order; `idx` says where they are. */
  ghost predicate SelectedAt(out: seq<File>, files: seq<File>, configs: seq<Json>, idx: seq<nat>) {
    && Ascending(idx) && (forall k :: 0 <= k < |idx| ==> idx[k] < |files|)
    && (forall i :: 0 <= i < |files| ==> (i in idx <==> Selected(files[i], configs)))
    && |out| == |idx| && forall k :: 0 <= k < |idx| ==> out[k] == files[idx[k]]
  }

  lemma KeptIsSelected(f: File, configs: seq<Json>)
    ensures Kept(f, configs) <==> Selected(f, configs)
  {
    hide Matches, Meets;
    forall config
      ensures Matches(f.condition, config) <==> Meets(config, f.condition)
    {
      MatchesMeets(f.condition, config);
    }
    if Selected(f, configs) && f.condition != [] {
      var config :| config in configs && Meets(config, f.condition);
      var i :| 0 <= i < |configs| && configs[i] == config;
    }
  }

  lemma OneMoreSelected(out: seq<File>, files: seq<File>, configs: seq<Json>, idx: seq<nat>)
    requires files != [] && SelectedAt(out, files[..|files| - 1], configs, idx)
    ensures var n := |files| - 1;
            if Selected(files[n], configs) then SelectedAt(out + [files[n]], files, configs, idx + [n])
            else SelectedAt(out, files, configs, idx)
  {
    hide Selected;
    var n := |files| - 1;
    var front := files[..n];
    assert forall i :: 0 <= i < n ==> front[i] == files[i];
    AscendingPush(idx, n);
    forall k | 0 <= k < |idx|
      ensures idx[k] < n && out[k] == files[idx[k]]
    {
      assert out[k] == front[idx[k]];
    }
  }

  lemma {:induction false} KeptFilesSelected(files: seq<File>, configs: seq<Json>) returns (idx: seq<nat>)
    ensures SelectedAt(KeptFiles(files, configs), files, configs, idx)
    decreases |files|
  {
    hide Selected, SelectedAt, Kept;
    if files == [] {
      idx := [];
      NoneSelected(configs);
    } else {
      var n := |files| - 1;
      idx := KeptFilesSelected(files[..n], configs);
      OneMoreSelected(KeptFiles(files[..n], configs), files, configs, idx);
      KeptIsSelected(files[n], configs);
      assert KeptFiles(files[..n], configs) + [] == KeptFiles(files[..n], configs);
      idx := if Kept(files[n], configs) then idx + [n] else idx;
    }
  }

  lemma NoneSelected(configs: seq<Json>)
    ensures SelectedAt([], [], configs, [])
  {
  }

  /** The first configuration that meets the file's condition is enough. */
  method SomeMatches(f: File, configs: seq<Json>) returns (b: bool)
    requires f.condition != []
    ensures b <==> Kept(f, configs)
  {
    hide Matches;
    var j := 0;
    while j < |configs|
      invariant 0 <= j <= |configs| && forall k :: 0 <= k < j ==> !Matches(f.condition, configs[k])
    {
      if Matches(f.condition, configs[j]) {
        return true;
      }
      j := j + 1;
    }
    b := false;
  }

  lemma KeptPush(files: seq<File>, i: nat, configs: seq<Json>)
    requires i < |files|
    ensures KeptFiles(files[..i + 1], configs) == KeptFiles(files[..i], configs) + if Kept(files[i], configs) then [files[i]] else []
  {
    hide Kept;
    assert files[..i + 1][..i] == files[..i];
  }

  lemma NoneKept(configs: seq<Json>)
    ensures KeptFiles([], configs) == []
  {
  }

  lemma Unconditional(f: File, configs: seq<Json>)
    requires f.condition == []
    ensures Kept(f, configs)
  {
  }

  /** FilterFiles */
  method FilterFiles(entry: Entry, configs: seq<Json>) returns (out: seq<File>)
    ensures out == KeptFiles(entry.files, configs)
    ensures exists idx :: SelectedAt(out, entry.files, configs, idx)
  {
    ghost var idx := KeptFilesSelected(entry.files, configs);
    hide Matches, SelectedAt, KeptFiles, Kept;
    out := [];
    NoneKept(configs);
    assert entry.files[..0] == [];
    var i := 0;
    while i < |entry.files|
      invariant 0 <= i <= |entry.files| && out == KeptFiles(entry.files[..i], configs)
    {
      var f := entry.files[i];
      KeptPush(entry.files, i, configs);
      if f.condition == [] {
        Unconditional(f, configs);
        out := out + [f];
      } else {
        var found := SomeMatches(f, configs);
        if found {
          out := out + [f];
        }
      }
      i := i + 1;
    }
    assert entry.files[..i] == entry.files;
  }

  /** What is kept of provider `x` has a file called `n`. */
  ghost predicate Keeps(deps: Deps, x: string, configs: seq<Json>, n: string) {
    x in deps && Listed(KeptFiles(deps[x].files, configs), n)
  }

  /** The entries `deps` are `g` resolved, as far as provider `x` is concerned. */
  ghost predicate Resolved(g: Deps, deps: Deps, x: string) {
    x in g && Extended(g, deps) && Faithful(g, deps) && Complete(g, deps, x)
  }

  lemma KeptAt(files: seq<File>, configs: seq<Json>, n: string)
    ensures Listed(KeptFiles(files, configs), n) <==> exists k :: 0 <= k < |files| && files[k].name == n && Kept(files[k], configs)
  {
    hide Kept;
    var s := KeptFiles(files, configs);
    if Listed(s, n) {
      var i :| 0 <= i < |s| && s[i].name == n;
      assert s[i] in s;
    }
    if k :| 0 <= k < |files| && files[k].name == n && Kept(files[k], configs) {
      assert files[k] in s;
    }
  }

  lemma EarlierListed(files: seq<File>, k: nat, l: nat)
    requires k < l <= |files|
    ensures Listed(files[..l], files[k].name)
  {
    assert files[..l][k] == files[k];
  }

  /** Only one file is meant by a name. */
  lemma MeantUnique(g: Deps, x: string, refs: seq<Ref>, f: File, refs': seq<Ref>, f': File)
    requires Meant(g, x, refs, f) && Meant(g, x, refs', f') && f.name == f'.name
    ensures refs == refs' && f == f'
  {
    hide Route, FirstRoute, Stop;
    FirstRouteUnique(g, x, refs, refs', f.name);
    var files := g[Stop(x, refs, |refs|)].files;
    var k :| 0 <= k < |files| && files[k] == f && !Listed(files[..k], f.name);
    var k' :| 0 <= k' < |files| && files[k'] == f' && !Listed(files[..k'], f'.name);
    if k < k' {
      EarlierListed(files, k, k');
    } else if k' < k {
      EarlierListed(files, k', k);
    }
  }

  /** A file that provider `x` did not list itself: the resolved entry has it, once or more, always standing for the file
      that is meant. */
  lemma AddedFile(g: Deps, deps: Deps, x: string, n: string) returns (refs: seq<Ref>, f: File, k: nat)
    requires Resolved(g, deps, x) && InClosure(g, x, n) && !HasFile(g, x, n)
    ensures Meant(g, x, refs, f) && f.name == n
    ensures x in deps && k < |deps[x].files| && deps[x].files[k].name == n
    ensures forall i :: 0 <= i < |deps[x].files| && deps[x].files[i].name == n ==> StandsFor(g, x, deps[x].files[i], refs, f)
  {
    hide InClosure, Meant, PlainDeps, Required, Means;
    assert HasFile(deps, x, n);
    k :| 0 <= k < |deps[x].files| && deps[x].files[k].name == n;
    NotOwn(g, deps, x, n, k);
    refs, f :| StandsFor(g, x, deps[x].files[k], refs, f);
    forall i | 0 <= i < |deps[x].files| && deps[x].files[i].name == n
      ensures StandsFor(g, x, deps[x].files[i], refs, f)
    {
      NotOwn(g, deps, x, n, i);
      var refs', f' :| StandsFor(g, x, deps[x].files[i], refs', f');
      MeantUnique(g, x, refs, f, refs', f');
    }
  }

  lemma NotOwn(g: Deps, deps: Deps, x: string, n: string, i: nat)
    requires Resolved(g, deps, x) && !HasFile(g, x, n) && i < |deps[x].files| && deps[x].files[i].name == n
    ensures i >= |g[x].files| && FromRoute(g, x, deps[x].files[i])
  {
    hide InClosure, FromRoute, Complete, HasFile, Listed;
    if i < |g[x].files| {
      HasOwn(g, deps, x, i);
    }
  }

  lemma HasOwn(g: Deps, deps: Deps, x: string, i: nat)
    requires x in g && x in deps && i < |g[x].files| && g[x].files <= deps[x].files
    ensures HasFile(g, x, deps[x].files[i].name)
  {
    assert g[x].files[i] == deps[x].files[i];
  }

  /** A provider's own files win: under a name that it lists itself only its own files count, each with its own
      condition. */
  lemma OwnFilesWin(g: Deps, deps: Deps, x: string, configs: seq<Json>, n: string)
    requires Resolved(g, deps, x) && HasFile(g, x, n)
    ensures Keeps(deps, x, configs, n) <==>
            exists k :: 0 <= k < |g[x].files| && g[x].files[k].name == n && Kept(g[x].files[k], configs)
  {
    hide Kept, InClosure, FromRoute, Complete;
    KeptAt(deps[x].files, configs, n);
    forall k | 0 <= k < |deps[x].files| && deps[x].files[k].name == n
      ensures k < |g[x].files| && g[x].files[k] == deps[x].files[k]
    {
    }
    if k :| 0 <= k < |g[x].files| && g[x].files[k].name == n && Kept(g[x].files[k], configs) {
      assert deps[x].files[k] == g[x].files[k];
    }
  }

  lemma KeptMeans(h: File, configs: seq<Json>, refs: seq<Ref>, f: File)
    requires Means(h.condition, refs, f) && configs != []
    ensures Kept(h, configs) <==> exists i :: 0 <= i < |configs| && Required(refs, f, configs[i])
  {
    hide Matches, AllMatch;
    if h.condition == [] {
      EmptyMatches(configs[0]);
      assert Required(refs, f, configs[0]);
    }
  }

  /** Which files a configuration gets, in terms of the original entries: a file that provider `x` does not list itself is
      kept exactly if one of the configurations meets everything required on the first route to it.  This holds for
      all configurations exactly if some configuration can meet what is required there, that is, if no combination of
      the conditions on the way comes out empty. */
  lemma WhatIsKept(g: Deps, deps: Deps, x: string, refs: seq<Ref>, f: File)
    requires Resolved(g, deps, x) && PlainDeps(g) && Meant(g, x, refs, f) && refs != []
    ensures (exists config :: Required(refs, f, config)) <==>
            forall configs :: configs != [] ==>
              (Keeps(deps, x, configs, f.name) <==> exists i :: 0 <= i < |configs| && Required(refs, f, configs[i]))
    ensures (exists config :: Required(refs, f, config)) <==> NothingDropped(WithFile(refs, f))
  {
    hide InClosure, PlainDeps, Required, Means, NothingDropped, WithFile, Plain, PlainCondition, Kept, Matches, HasFile,
         FirstNamed, Route, Stop, Complete, Extended, Faithful, ClauseMatches, KeptFiles;
    MeantPlain(g, x, refs, f);
    RequiredExact(refs, f);
    FirstRouteLeads(g, x, refs, f.name);
    var refs', f', k := AddedFile(g, deps, x, f.name);
    MeantUnique(g, x, refs, f, refs', f');
    var h := deps[x].files[k];
    if exists config :: Required(refs, f, config) {
      forall configs | configs != []
        ensures Keeps(deps, x, configs, f.name) <==> exists i :: 0 <= i < |configs| && Required(refs, f, configs[i])
      {
        KeptAt(deps[x].files, configs, f.name);
        forall i | 0 <= i < |deps[x].files| && deps[x].files[i].name == f.name
          ensures Kept(deps[x].files[i], configs) <==> exists j :: 0 <= j < |configs| && Required(refs, f, configs[j])
        {
          KeptMeans(deps[x].files[i], configs, refs, f);
        }
      }
    } else {
      var config := SomeConfig(h.condition);
      KeptAt(deps[x].files, [config], f.name);
      KeptOne(h, config);
      assert Keeps(deps, x, [config], f.name);
    }
  }

  lemma MeantPlain(g: Deps, x: string, refs: seq<Ref>, f: File)
    requires PlainDeps(g) && Meant(g, x, refs, f)
    ensures Plain(refs) && PlainCondition(f.condition)
  {
    hide PlainCondition, Route, Stop, FirstRoute;
    ExtendStart(g);
    PlainRoute(g, g, x, refs);
  }

  lemma KeptOne(h: File, config: Json)
    ensures Kept(h, [config]) <==> Matches(h.condition, config)
  {
    hide ClauseMatches;
    assert [config][0] == config;
  }

  /** Some provider that `x` reaches by `refs` offers file `f`, first or not. */
  ghost predicate Offers(g: Deps, x: string, refs: seq<Ref>, f: File) {
    Route(g, x, refs) && Stop(x, refs, |refs|) in g && f in g[Stop(x, refs, |refs|)].files
  }

  /** On some route a file called `n` is needed under the configuration. */
  ghost predicate Wanted(g: Deps, x: string, n: string, config: Json) {
    exists refs, f :: Offers(g, x, refs, f) && f.name == n && Required(refs, f, config)
  }

  /** Whatever the conditions on one route to a file and that file's own allow together, those on the other route allow
      too: every choice of values from a clause of the one combination is allowed by a clause of the other. */
  ghost predicate RequiresMore(refs': seq<Ref>, f': File, refs: seq<Ref>, f: File) {
    NothingDropped(WithFile(refs', f')) ==> Covered(Inherited(WithFile(refs', f')), Inherited(WithFile(refs, f)))
  }

  /** All other routes to a file of that name require at least as much as the one to the file that is meant. */
  ghost predicate OthersRequireMore(g: Deps, x: string, refs: seq<Ref>, f: File) {
    forall refs', f' :: Offers(g, x, refs', f') && f'.name == f.name ==> RequiresMore(refs', f', refs, f)
  }

  lemma RequiresMoreIff(refs': seq<Ref>, f': File, refs: seq<Ref>, f: File)
    requires Plain(refs) && PlainCondition(f.condition) && Plain(refs') && PlainCondition(f'.condition)
    requires NothingDropped(WithFile(refs, f))
    ensures RequiresMore(refs', f', refs, f) <==> forall config :: Required(refs', f', config) ==> Required(refs, f, config)
  {
    hide Matches, PlainCondition, Inherited, NothingDropped, Required, Covered, Plain, WithFile;
    RequiredExact(refs, f);
    RequiredExact(refs', f');
    if NothingDropped(WithFile(refs', f')) {
      ImpliesIff(Inherited(WithFile(refs', f')), Inherited(WithFile(refs, f)));
    }
  }

  lemma OfferPlain(g: Deps, x: string, refs: seq<Ref>, f: File)
    requires PlainDeps(g) && Offers(g, x, refs, f)
    ensures Plain(refs) && PlainCondition(f.condition)
  {
    hide PlainCondition, Route, Stop;
    ExtendStart(g);
    PlainRoute(g, g, x, refs);
  }

  /** Only the first route counts.  A file is never kept when no route needs it; and it is kept whenever some route needs
      it, exactly if the conditions on all other routes, clause by clause, allow no more than those on the first. */
  lemma NothingLost(g: Deps, deps: Deps, x: string, refs: seq<Ref>, f: File)
    requires Resolved(g, deps, x) && PlainDeps(g) && Meant(g, x, refs, f) && refs != []
    requires NothingDropped(WithFile(refs, f))
    ensures forall config :: Keeps(deps, x, [config], f.name) ==> Wanted(g, x, f.name, config)
    ensures OthersRequireMore(g, x, refs, f) <==> forall config :: Wanted(g, x, f.name, config) ==> Keeps(deps, x, [config], f.name)
  {
    hide Resolved, PlainDeps, Required, Keeps, Route, FirstRoute, Stop, RequiresMore, NothingDropped, Plain,
         PlainCondition, WithFile;
    assert Offers(g, x, refs, f);
    KeptIfRequired(g, deps, x, refs, f);
    OfferPlain(g, x, refs, f);
    forall refs', f' | Offers(g, x, refs', f') && f'.name == f.name
      ensures RequiresMore(refs', f', refs, f) <==> forall config :: Required(refs', f', config) ==> Required(refs, f, config)
    {
      OfferPlain(g, x, refs', f');
      RequiresMoreIff(refs', f', refs, f);
    }
  }

  lemma KeptIfRequired(g: Deps, deps: Deps, x: string, refs: seq<Ref>, f: File)
    requires Resolved(g, deps, x) && PlainDeps(g) && Meant(g, x, refs, f) && refs != []
    requires NothingDropped(WithFile(refs, f))
    ensures forall config :: Keeps(deps, x, [config], f.name) <==> Required(refs, f, config)
  {
    hide Resolved, PlainDeps, Required, Keeps, Route, FirstRoute, Stop, NothingDropped, WithFile;
    WhatIsKept(g, deps, x, refs, f);
    forall config
      ensures Keeps(deps, x, [config], f.name) <==> Required(refs, f, config)
    {
      assert [config][0] == config;
    }
  }

  // ----- Two routes with different conditions.

  function Only(v: string): Condition {
    [map["k" := [v]]]
  }

  /** A needs B under "x" and C under "y"; both need D, which has the file "d". */
  function Diamond(): Deps {
    map["A" := Entry("A", [], [Ref("B", Only("x")), Ref("C", Only("y"))]),
        "B" := Entry("B", [], [Ref("D", [])]),
        "C" := Entry("C", [], [Ref("D", [])]),
        "D" := Entry("D", [File("d", "", [])], [])]
  }

  lemma OnlyMatches(v: string, w: string)
    ensures Matches(Only(v), Object(map["k" := Text(w)])) <==> Alike(v, w)
  {
    hide Alike;
    var clause, config := map["k" := [v]], Object(map["k" := Text(w)]);
    OneClause(clause, config);
    assert clause["k"] == [v] && config.fields["k"] == Text(w) && v in [v];
    assert ValueMatches(Text(w), [v]) <==> Alike(v, w);
    assert ClauseMatches(clause, config) <==> ValueMatches(config.fields["k"], clause["k"]);
  }

  lemma LettersDiffer()
    ensures Alike("x", "x") && Alike("y", "y") && !Alike("x", "y")
  {
    assert ToLower("x")[0] == 'x' && ToLower("y")[0] == 'y';
  }

  lemma OnlyPlain(v: string)
    requires ToLower(v) == v
    ensures PlainCondition(Only(v)) && PlainCondition([])
  {
    assert Only(v)[0]["k"] == [v];
  }

  lemma DiamondPlain()
    ensures PlainDeps(Diamond())
  {
    hide PlainCondition;
    assert ToLower("x") == "x" && ToLower("y") == "y";
    OnlyPlain("x");
    OnlyPlain("y");
  }

  lemma DiamondFirst()
    ensures Meant(Diamond(), "A", [Ref("B", Only("x")), Ref("D", [])], File("d", "", []))
  {
    hide Only;
    var g, b, d, f := Diamond(), Ref("B", Only("x")), Ref("D", []), File("d", "", []);
    assert g["D"].files[0] == f;
    assert HasFile(g, "D", "d") && !HasFile(g, "A", "d") && !HasFile(g, "B", "d");
    FirstRouteHere(g, "D", "d");
    assert FirstEdge(g, "B", 0, d, "d") && FirstEdge(g, "A", 0, b, "d");
    FirstRouteStep(g, "B", 0, d, [], "d");
    FirstRouteStep(g, "A", 0, b, [d], "d");
    assert [b] + [d] == [b, d] && [d] + [] == [d];
    assert g["A"].dependencies[0] == b && g["B"].dependencies[0] == d;
  }

  lemma DiamondOther()
    ensures Offers(Diamond(), "A", [Ref("C", Only("y")), Ref("D", [])], File("d", "", []))
  {
    hide Only;
    var g := Diamond();
    assert g["A"].dependencies[1] == Ref("C", Only("y")) && g["C"].dependencies[0] == Ref("D", []) && g["D"].files[0] == File("d", "", []);
  }

  /** Where every edge leads to a provider of higher rank nothing can go wrong. */
  lemma RankedResolvable(g: Deps, rank: map<string, nat>)
    requires forall x :: x in g ==> x in rank
    requires forall x, y :: Edge(g, x, y) ==> y in g && x in rank && y in rank && rank[x] < rank[y]
    ensures forall x :: x in g ==> Resolvable(g, x)
  {
    hide Edge;
    forall p | Walk(g, p) && p[0] in g
      ensures !Stuck(g, p)
    {
      StaysInside(g, p);
      forall i | 0 <= i < |p| - 1
        ensures rank[p[i]] < rank[p[|p| - 1]]
      {
        RankRises(g, rank, p, i);
      }
    }
  }

  lemma StaysInside(g: Deps, p: seq<string>)
    requires Walk(g, p) && p[0] in g && forall x, y :: Edge(g, x, y) ==> y in g
    ensures forall k :: 0 <= k < |p| ==> p[k] in g
  {
    hide Edge;
    forall k | 0 < k < |p|
      ensures p[k] in g
    {
      assert Edge(g, p[k - 1], p[k - 1 + 1]);
    }
  }

  lemma {:induction false} RankRises(g: Deps, rank: map<string, nat>, p: seq<string>, i: nat)
    requires Walk(g, p) && i < |p| && forall k :: 0 <= k < |p| ==> p[k] in g && p[k] in rank
    requires forall x, y :: Edge(g, x, y) ==> y in g && x in rank && y in rank && rank[x] < rank[y]
    ensures i < |p| - 1 ==> rank[p[i]] < rank[p[|p| - 1]]
    decreases |p| - i
  {
    hide Edge;
    if i < |p| - 1 {
      assert Edge(g, p[i], p[i + 1]);
      RankRises(g, rank, p, i + 1);
    }
  }

  lemma DiamondResolvable()
    ensures forall x :: x in Diamond() ==> Resolvable(Diamond(), x)
  {
    hide Only;
    var g, rank := Diamond(), map["A" := 0, "B" := 1, "C" := 1, "D" := 2];
    forall x, y | Edge(g, x, y)
      ensures y in g && x in rank && y in rank && rank[x] < rank[y]
    {
    }
    RankedResolvable(g, rank);
  }

  /** Resolving the four entries succeeds; a configuration with "y" needs the file through C, but does not get it. */
  method DiamondLoses() returns (config: Config)
    ensures fresh(config) && config.resolved && Resolved(Diamond(), config.deps, "A")
    ensures Wanted(Diamond(), "A", "d", Object(map["k" := Text("y")]))
    ensures !Keeps(config.deps, "A", [Object(map["k" := Text("y")])], "d")
  {
    hide Resolvable, Extended, Faithful, Complete, Wanted, Keeps;
    var g := Diamond();
    var entries := [g["A"], g["B"], g["C"], g["D"]];
    FourInserted(entries);
    DiamondResolvable();
    config := new Config();
    config.FromEntries(entries);
    SecondRouteLoses(config.deps);
  }

  lemma FourInserted(entries: seq<Entry>)
    requires var g := Diamond(); entries == [g["A"], g["B"], g["C"], g["D"]]
    ensures Inserted(map[], entries) == Diamond()
  {
    hide Only;
    assert entries[..3][..2] == entries[..2] && entries[..2][..1] == entries[..1] && entries[..1][..0] == [];
    assert Inserted(map[], entries[..1]) == map["A" := entries[0]];
    assert Inserted(map[], entries[..2]) == map["A" := entries[0], "B" := entries[1]];
    assert Inserted(map[], entries[..3]) == map["A" := entries[0], "B" := entries[1], "C" := entries[2]];
  }

  lemma SecondRouteLoses(deps: Deps)
    requires Resolved(Diamond(), deps, "A")
    ensures Wanted(Diamond(), "A", "d", Object(map["k" := Text("y")]))
    ensures !Keeps(deps, "A", [Object(map["k" := Text("y")])], "d")
  {
    hide Resolved, Matches, PlainDeps, Meant, Keeps, Only, Diamond, Route;
    var g, config, f := Diamond(), Object(map["k" := Text("y")]), File("d", "", []);
    var viaB, viaC := [Ref("B", Only("x")), Ref("D", [])], [Ref("C", Only("y")), Ref("D", [])];
    DiamondPlain();
    DiamondFirst();
    DiamondOther();
    LettersDiffer();
    OnlyMatches("y", "y");
    OnlyMatches("x", "x");
    OnlyMatches("x", "y");
    EmptyMatches(config);
    EmptyMatches(Object(map["k" := Text("x")]));
    assert viaB[0].condition == Only("x");
    assert Required(viaC, f, config);
    assert Required(viaB, f, Object(map["k" := Text("x")]));
    assert !Required(viaB, f, config);
    assert Offers(g, "A", viaC, f);
    WhatIsKept(g, deps, "A", viaB, f);
    KeptIfRequired(g, deps, "A", viaB, f);
  }
}
