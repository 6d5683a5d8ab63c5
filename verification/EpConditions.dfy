/** Conditions on execution-provider configurations: an OR of AND-clauses, each clause giving the values allowed for
    some keys.  An empty condition always holds.
 */
module EpConditions {

  /** A JSON value; numbers carry the text they are printed as. */
  datatype Json = Text(s: string) | Integer(shown: string) | Float(shown: string) | Boolean(b: bool)
                | Object(fields: map<string, Json>) | Array(items: seq<Json>) | Null

  type Clause = map<string, seq<string>>
  type Condition = seq<Clause>

  datatype Option<T> = None | Some(value: T)

  // ----- Parsing.

  /** The strings of a list; other items are passed over. */
  function Texts(items: seq<Json>): (r: seq<string>)
    ensures forall v :: v in r <==> Text(v) in items
  {
    if items == [] then []
    else
      var last := items[|items| - 1];
      Texts(items[..|items| - 1]) + if last.Text? then [last.s] else []
  }

  /** The values allowed by one entry of a clause: a string, or the strings of a list. */
  function Allowed(value: Json): seq<string> {
    match value
    case Text(s) => [s]
    case Array(items) => Texts(items)
    case _ => []
  }

  /** Entries that allow nothing are left out, so they do not restrict anything. */
  function ClauseOf(obj: Json): (c: Clause)
    ensures NonEmptyLists(c)
  {
    if obj.Object? then map key | key in obj.fields && Allowed(obj.fields[key]) != [] :: Allowed(obj.fields[key]) else map[]
  }

  function ClausesOf(items: seq<Json>): (c: Condition)
    ensures NonEmptyCondition(c)
  {
    if items == [] then []
    else
      var clause := ClauseOf(items[|items| - 1]);
      ClausesOf(items[..|items| - 1]) + if clause != map[] then [clause] else []
  }

  // What parsing means, by places in the lists.

  ghost predicate Ascending(idx: seq<nat>) {
    forall j, k :: 0 <= j < k < |idx| ==> idx[j] < idx[k]
  }

  /** `values` are all the strings of a list, in order; `idx` says where they are. */
  ghost predicate StringsAt(values: seq<string>, items: seq<Json>, idx: seq<nat>) {
    && Ascending(idx) && (forall k :: 0 <= k < |idx| ==> idx[k] < |items|) && (forall i :: 0 <= i < |items| && items[i].Text? ==> i in idx)
    && |values| == |idx| && forall k :: 0 <= k < |idx| ==> items[idx[k]] == Text(values[k])
  }

  ghost predicate AllStrings(values: seq<string>, items: seq<Json>) {
    exists idx :: StringsAt(values, items, idx)
  }

  /** A string, or a list with a string in it. */
  ghost predicate SaysSomething(value: Json) {
    value.Text? || (value.Array? && exists i :: 0 <= i < |value.items| && value.items[i].Text?)
  }

  /** The clause has those keys that say something, each with its string or the strings of its list. */
  ghost predicate IsClause(clause: Clause, obj: Json) {
    && (forall key :: key in clause <==> obj.Object? && key in obj.fields && SaysSomething(obj.fields[key]))
    && (forall key :: key in clause && key in obj.fields && obj.fields[key].Text? ==> clause[key] == [obj.fields[key].s])
    && (forall key :: key in clause && key in obj.fields && obj.fields[key].Array? ==> AllStrings(clause[key], obj.fields[key].items))
  }

  ghost predicate Restricts(obj: Json) {
    obj.Object? && exists key :: key in obj.fields && SaysSomething(obj.fields[key])
  }

  /** One clause for every item with such a key, in order; `idx` says where these items are. */
  ghost predicate ClausesAt(condition: Condition, items: seq<Json>, idx: seq<nat>) {
    && Ascending(idx) && (forall k :: 0 <= k < |idx| ==> idx[k] < |items|) && (forall i :: 0 <= i < |items| ==> (i in idx <==> Restricts(items[i])))
    && |condition| == |idx| && forall k :: 0 <= k < |idx| ==> IsClause(condition[k], items[idx[k]])
  }

  ghost predicate IsCondition(condition: Condition, items: seq<Json>) {
    exists idx :: ClausesAt(condition, items, idx)
  }

  lemma AscendingPush(idx: seq<nat>, i: nat)
    requires Ascending(idx) && forall j :: j in idx ==> j < i
    ensures Ascending(idx + [i]) && forall j :: j in idx + [i] <==> j in idx || j == i
  {
    forall k | 0 <= k < |idx|
      ensures idx[k] < i
    {
      assert idx[k] in idx;
    }
  }

  lemma OneMoreString(values: seq<string>, items: seq<Json>, idx: seq<nat>)
    requires items != [] && StringsAt(values, items[..|items| - 1], idx)
    ensures var n := |items| - 1;
            if items[n].Text? then StringsAt(values + [items[n].s], items, idx + [n]) else StringsAt(values, items, idx)
  {
    var n := |items| - 1;
    var front := items[..n];
    assert forall i :: 0 <= i < n ==> front[i] == items[i];
    AscendingPush(idx, n);
    forall k | 0 <= k < |idx|
      ensures idx[k] < n && items[idx[k]] == Text(values[k])
    {
      assert front[idx[k]] == Text(values[k]);
    }
  }

  lemma {:induction false} TextsAreAll(items: seq<Json>)
    ensures AllStrings(Texts(items), items)
    decreases |items|
  {
    hide StringsAt;
    if items == [] {
      NoStrings();
    } else {
      var n := |items| - 1;
      TextsAreAll(items[..n]);
      var idx :| StringsAt(Texts(items[..n]), items[..n], idx);
      OneMoreString(Texts(items[..n]), items, idx);
      assert Texts(items[..n]) + [] == Texts(items[..n]);
    }
  }

  lemma NoStrings()
    ensures StringsAt([], [], []) && ClausesAt([], [], [])
  {
  }

  lemma SomeText(value: Json)
    ensures Allowed(value) != [] <==> SaysSomething(value)
  {
    if value.Array? {
      if SaysSomething(value) {
        var i :| 0 <= i < |value.items| && value.items[i].Text?;
        assert Text(value.items[i].s) in value.items;
        assert value.items[i].s in Texts(value.items);
      } else if Texts(value.items) != [] {
        assert Texts(value.items)[0] in Texts(value.items);
      }
    }
  }

  lemma ClauseOfMeans(obj: Json)
    ensures IsClause(ClauseOf(obj), obj) && (ClauseOf(obj) != map[] <==> Restricts(obj))
  {
    hide SaysSomething, Texts;
    if obj.Object? {
      forall key | key in obj.fields
        ensures key in ClauseOf(obj) <==> SaysSomething(obj.fields[key])
        ensures obj.fields[key].Array? ==> AllStrings(Allowed(obj.fields[key]), obj.fields[key].items)
      {
        SomeText(obj.fields[key]);
        if obj.fields[key].Array? {
          TextsAreAll(obj.fields[key].items);
        }
      }
      if Restricts(obj) {
        var key :| key in obj.fields && SaysSomething(obj.fields[key]);
        assert key in ClauseOf(obj);
      }
    }
  }

  lemma OneMoreItem(condition: Condition, items: seq<Json>, idx: seq<nat>, clause: Clause)
    requires items != [] && ClausesAt(condition, items[..|items| - 1], idx) && IsClause(clause, items[|items| - 1])
    ensures var n := |items| - 1;
            if Restricts(items[n]) then ClausesAt(condition + [clause], items, idx + [n]) else ClausesAt(condition, items, idx)
  {
    hide IsClause, Restricts;
    var n := |items| - 1;
    var front := items[..n];
    assert forall i :: 0 <= i < n ==> front[i] == items[i];
    AscendingPush(idx, n);
    forall k | 0 <= k < |idx|
      ensures idx[k] < n && IsClause(condition[k], items[idx[k]])
    {
      assert IsClause(condition[k], front[idx[k]]);
    }
  }

  lemma {:induction false} ClausesOfMeans(items: seq<Json>)
    ensures IsCondition(ClausesOf(items), items)
    decreases |items|
  {
    hide IsClause, Restricts, ClauseOf, ClausesAt;
    if items == [] {
      NoStrings();
    } else {
      var n := |items| - 1;
      ClausesOfMeans(items[..n]);
      ClauseOfMeans(items[n]);
      var before := ClausesOf(items[..n]);
      var idx :| ClausesAt(before, items[..n], idx);
      OneMoreItem(before, items, idx, ClauseOf(items[n]));
      assert before + [] == before;
    }
  }

  /** ParseConditionClause; the entries are visited in any order. */
  method ParseConditionClause(obj: Json) returns (clause: Clause)
    ensures clause == ClauseOf(obj) && IsClause(clause, obj)
  {
    ClauseOfMeans(obj);
    hide IsClause;
    clause := map[];
    if !obj.Object? {
      return;
    }
    var rest := obj.fields.Keys;
    while rest != {}
      invariant rest <= obj.fields.Keys
      invariant clause == map key | key in obj.fields.Keys - rest && Allowed(obj.fields[key]) != [] :: Allowed(obj.fields[key])
      decreases |rest|
    {
      var key :| key in rest;
      rest := rest - {key};
      var values := ReadValues(obj.fields[key]);
      if values != [] {
        clause := clause[key := values];
      }
    }
  }

  method ReadValues(value: Json) returns (values: seq<string>)
    ensures values == Allowed(value)
  {
    values := [];
    if value.Text? {
      values := [value.s];
    } else if value.Array? {
      var i := 0;
      while i < |value.items|
        invariant 0 <= i <= |value.items| && values == Texts(value.items[..i])
      {
        assert value.items[..i + 1][..i] == value.items[..i];
        if value.items[i].Text? {
          values := values + [value.items[i].s];
        }
        i := i + 1;
      }
      assert value.items[..i] == value.items;
    }
  }

  /** ParseCondition: one clause or a list of clauses; empty ones are dropped.  What is parsed has one clause for every item
      with a key that says something, and never an empty list of values. */
  method ParseCondition(json: Json) returns (condition: Condition)
    ensures condition == if json.Array? then ClausesOf(json.items) else if json.Object? then ClausesOf([json]) else []
    ensures NonEmptyCondition(condition)
    ensures json.Array? ==> IsCondition(condition, json.items)
    ensures json.Object? ==> IsCondition(condition, [json])
    ensures !json.Array? && !json.Object? ==> condition == []
  {
    hide IsCondition, IsClause;
    condition := [];
    if json.Array? {
      ClausesOfMeans(json.items);
      var i := 0;
      while i < |json.items|
        invariant 0 <= i <= |json.items| && condition == ClausesOf(json.items[..i])
      {
        assert json.items[..i + 1][..i] == json.items[..i];
        var clause := ParseConditionClause(json.items[i]);
        if clause != map[] {
          condition := condition + [clause];
        }
        i := i + 1;
      }
      assert json.items[..i] == json.items;
    } else if json.Object? {
      ClausesOfMeans([json]);
      assert [json][..0] == [];
      var clause := ParseConditionClause(json);
      if clause != map[] {
        condition := [clause];
      }
    }
  }

  // ----- Matching.

  /** tolower of one character, in the "C" locale. */
  function Lower(c: char): char {
    if 'A' <= c <= 'Z' then c - 'A' + 'a' else c
  }

  function ToLower(s: string): (r: string)
    ensures |r| == |s|
  {
    seq(|s|, i requires 0 <= i < |s| => Lower(s[i]))
  }

  /** Equal but for upper and lower case. */
  predicate Alike(v: string, w: string) {
    ToLower(v) == ToLower(w)
  }

  /** The text a scalar is compared by. */
  function Actual(value: Json): Option<string> {
    match value
    case Text(s) => Some(s)
    case Integer(shown) => Some(shown)
    case Float(shown) => Some(shown)
    case Boolean(b) => Some(if b then "true" else "false")
    case _ => None
  }

  /** Whether the scalar is one of the allowed values, upper and lower case alike. */
  predicate ValueMatches(value: Json, allowed: seq<string>) {
    Actual(value).Some? && exists candidate :: candidate in allowed && Alike(candidate, Actual(value).value)
  }

  predicate ClauseMatches(clause: Clause, config: Json) {
    forall key :: key in clause ==>
      config.Object? && key in config.fields && ValueMatches(config.fields[key], clause[key])
  }

  predicate Matches(condition: Condition, config: Json) {
    condition == [] || exists i :: 0 <= i < |condition| && ClauseMatches(condition[i], config)
  }

  // ----- Combining, as a function.

  /** The values of `xs` that are also in `ys`, spelled alike. */
  function Common(xs: seq<string>, ys: seq<string>): (r: seq<string>)
    ensures forall v :: v in r <==> v in xs && v in ys
  {
    if xs == [] then []
    else Common(xs[..|xs| - 1], ys) + if xs[|xs| - 1] in ys then [xs[|xs| - 1]] else []
  }

  /** Some key of both clauses has no common value. */
  predicate Clash(ca: Clause, cb: Clause) {
    exists key :: key in ca && key in cb && Common(ca[key], cb[key]) == []
  }

  /** All keys of both clauses; where they share a key, the common values. */
  function Union(ca: Clause, cb: Clause): Clause {
    map key | key in ca.Keys + cb.Keys ::
      if key !in cb then ca[key] else if key !in ca then cb[key] else Common(ca[key], cb[key])
  }

  function WithEach(ca: Clause, b: Condition): Condition {
    if b == [] then []
    else
      var cb := b[|b| - 1];
      WithEach(ca, b[..|b| - 1]) + if Clash(ca, cb) then [] else [Union(ca, cb)]
  }

  function AllPairs(a: Condition, b: Condition): Condition {
    if a == [] then [] else AllPairs(a[..|a| - 1], b) + WithEach(a[|a| - 1], b)
  }

  function Combined(a: Condition, b: Condition): Condition {
    if a == [] then b else if b == [] then a else AllPairs(a, b)
  }

  // ----- Combining, as the loops do it.

  method Intersect(xs: seq<string>, ys: seq<string>) returns (inter: seq<string>)
    ensures inter == Common(xs, ys)
  {
    inter := [];
    var i := 0;
    while i < |xs|
      invariant 0 <= i <= |xs| && inter == Common(xs[..i], ys)
    {
      assert xs[..i + 1][..i] == xs[..i];
      if xs[i] in ys {
        inter := inter + [xs[i]];
      }
      i := i + 1;
    }
    assert xs[..i] == xs;
  }

  /** `merged` after all keys of `cb` but those in `rest`. */
  ghost predicate MergedSoFar(ca: Clause, cb: Clause, merged: Clause, rest: set<string>) {
    && rest <= cb.Keys && merged.Keys == ca.Keys + (cb.Keys - rest)
    && (forall key :: key in ca && (key !in cb || key in rest) ==> merged[key] == ca[key])
    && (forall key :: key in cb && key !in rest ==>
                        if key in ca then merged[key] == Common(ca[key], cb[key]) != [] else merged[key] == cb[key])
  }

  lemma MergeOne(ca: Clause, cb: Clause, merged: Clause, rest: set<string>, key: string)
    requires MergedSoFar(ca, cb, merged, rest) && key in rest
    ensures key in cb && (key in merged <==> key in ca) && (key in ca ==> merged[key] == ca[key])
    ensures key !in ca ==> MergedSoFar(ca, cb, merged[key := cb[key]], rest - {key})
    ensures key in ca && Common(ca[key], cb[key]) != [] ==> MergedSoFar(ca, cb, merged[key := Common(ca[key], cb[key])], rest - {key})
  {
    hide Common;
  }

  lemma MergeEnd(ca: Clause, cb: Clause, merged: Clause)
    requires MergedSoFar(ca, cb, merged, {})
    ensures !Clash(ca, cb) && merged == Union(ca, cb)
  {
    hide Common;
  }

  /** Merges `cb` into `ca`, key by key in any order; stops at the first key without a common value. */
  method MergeClauses(ca: Clause, cb: Clause) returns (merged: Clause, drop: bool)
    ensures drop <==> Clash(ca, cb)
    ensures !drop ==> merged == Union(ca, cb)
  {
    hide Common, MergedSoFar, Union;
    merged, drop := ca, false;
    var rest := cb.Keys;
    MergeStart(ca, cb);
    while rest != {} && !drop
      invariant if drop then Clash(ca, cb) else MergedSoFar(ca, cb, merged, rest)
      decreases |rest|
    {
      var key :| key in rest;
      MergeOne(ca, cb, merged, rest, key);
      rest := rest - {key};
      if key !in merged {
        merged := merged[key := cb[key]];
      } else {
        var inter := Intersect(merged[key], cb[key]);
        if inter == [] {
          drop := true;
        } else {
          merged := merged[key := inter];
        }
      }
    }
    if !drop {
      MergeEnd(ca, cb, merged);
    }
  }

  lemma MergeStart(ca: Clause, cb: Clause)
    ensures MergedSoFar(ca, cb, ca, cb.Keys)
  {
  }

  lemma OneMoreClause(ca: Clause, b: Condition, j: nat)
    requires j < |b|
    ensures WithEach(ca, b[..j + 1]) == WithEach(ca, b[..j]) + if Clash(ca, b[j]) then [] else [Union(ca, b[j])]
  {
    assert b[..j + 1][..j] == b[..j];
  }

  lemma OneMoreRow(a: Condition, b: Condition, i: nat)
    requires i < |a|
    ensures AllPairs(a[..i + 1], b) == AllPairs(a[..i], b) + WithEach(a[i], b)
  {
    assert a[..i + 1][..i] == a[..i];
  }

  lemma NoRows(b: Condition)
    ensures AllPairs([], b) == [] && forall c :: WithEach(c, []) == []
  {
  }

  /** CombineConditions */
  method CombineConditions(a: Condition, b: Condition) returns (out: Condition)
    ensures out == Combined(a, b)
  {
    hide Clash, Union, WithEach, AllPairs;
    if a == [] { return b; }
    NoRows(b);
    if b == [] { return a; }
    out := [];
    var i := 0;
    while i < |a|
      invariant 0 <= i <= |a| && out == AllPairs(a[..i], b)
    {
      ghost var before := out;
      var j := 0;
      while j < |b|
        invariant 0 <= j <= |b| && out == before + WithEach(a[i], b[..j])
      {
        var merged, drop := MergeClauses(a[i], b[j]);
        if !drop {
          out := out + [merged];
        }
        OneMoreClause(a[i], b, j);
        j := j + 1;
      }
      OneMoreRow(a, b, i);
      assert b[..j] == b;
      i := i + 1;
    }
    assert a[..i] == a;
  }

  // ----- What it means.

  /** A configuration that matches the merged clause matches both. */
  lemma UnionSound(ca: Clause, cb: Clause, config: Json)
    requires ClauseMatches(Union(ca, cb), config)
    ensures ClauseMatches(ca, config) && ClauseMatches(cb, config)
  {
    var u := Union(ca, cb);
    forall key | key in ca
      ensures config.Object? && key in config.fields && ValueMatches(config.fields[key], ca[key])
    {
      assert key in u;
    }
    forall key | key in cb
      ensures config.Object? && key in config.fields && ValueMatches(config.fields[key], cb[key])
    {
      assert key in u;
    }
  }

  /** Values that are equal but for case also occur with one spelling in both lists. */
  predicate SameSpelling(xs: seq<string>, ys: seq<string>) {
    forall v, w :: v in xs && w in ys && Alike(v, w) ==> exists u :: u in xs && u in ys && Alike(u, v)
  }

  /** No value of one list equals one of the other, even up to case. */
  predicate Disjoint(xs: seq<string>, ys: seq<string>) {
    forall v, w :: v in xs && w in ys ==> !Alike(v, w)
  }

  /** On every shared key the lists spell their common values alike; or no configuration can match both clauses anyway. */
  predicate Spelled(ca: Clause, cb: Clause) {
    || (exists key :: key in ca && key in cb && Disjoint(ca[key], cb[key]))
    || (forall key :: key in ca && key in cb ==> SameSpelling(ca[key], cb[key]))
  }

  lemma AlikeVia(v: string, w: string, x: string)
    requires Alike(v, x) && (Alike(w, x) || Alike(x, w))
    ensures Alike(v, w)
  {
  }

  lemma SharedValue(xs: seq<string>, ys: seq<string>, value: Json)
    requires ValueMatches(value, xs) && ValueMatches(value, ys)
    ensures !Disjoint(xs, ys)
    ensures SameSpelling(xs, ys) ==> ValueMatches(value, Common(xs, ys)) && Common(xs, ys) != []
  {
    hide Alike, Common;
    var x := Actual(value).value;
    var v :| v in xs && Alike(v, x);
    var w :| w in ys && Alike(w, x);
    AlikeVia(v, w, x);
    if SameSpelling(xs, ys) {
      var u :| u in xs && u in ys && Alike(u, v);
      AlikeVia(u, x, v);
      assert u in Common(xs, ys);
    }
  }

  /** With like spelling, a configuration that matches both clauses matches the merged one, and there is one. */
  lemma UnionComplete(ca: Clause, cb: Clause, config: Json)
    requires Spelled(ca, cb) && ClauseMatches(ca, config) && ClauseMatches(cb, config)
    ensures !Clash(ca, cb) && ClauseMatches(Union(ca, cb), config)
  {
    hide ValueMatches, Common, SameSpelling, Disjoint;
    forall key | key in ca && key in cb
      ensures ValueMatches(config.fields[key], Common(ca[key], cb[key])) && Common(ca[key], cb[key]) != []
    {
      forall k | k in ca && k in cb
        ensures !Disjoint(ca[k], cb[k])
      {
        SharedValue(ca[k], cb[k], config.fields[k]);
      }
      SharedValue(ca[key], cb[key], config.fields[key]);
    }
  }

  predicate NonEmptyLists(c: Clause) {
    forall key :: key in c ==> c[key] != []
  }

  /** A configuration with, for every key, a value both clauses allow. */
  ghost function Witness(ca: Clause, cb: Clause, at: string, v: string): Json
    requires NonEmptyLists(ca) && NonEmptyLists(cb)
    requires forall key :: key in ca && key in cb ==> !Disjoint(ca[key], cb[key])
  {
    Object(map key | key in ca.Keys + cb.Keys ::
             if key == at then Text(v)
             else if key !in cb then Text(ca[key][0])
             else if key !in ca then Text(cb[key][0])
             else Text(SharedText(ca[key], cb[key])))
  }

  ghost function SharedText(xs: seq<string>, ys: seq<string>): (v: string)
    requires !Disjoint(xs, ys)
    ensures v in xs && exists w :: w in ys && Alike(v, w)
  {
    var v, w :| v in xs && w in ys && Alike(v, w);
    v
  }

  lemma WitnessMatches(ca: Clause, cb: Clause, at: string, v: string, w: string)
    requires NonEmptyLists(ca) && NonEmptyLists(cb)
    requires forall key :: key in ca && key in cb ==> !Disjoint(ca[key], cb[key])
    requires at in ca && at in cb && v in ca[at] && w in cb[at] && Alike(v, w)
    ensures ClauseMatches(ca, Witness(ca, cb, at, v)) && ClauseMatches(cb, Witness(ca, cb, at, v))
  {
    var config := Witness(ca, cb, at, v);
    forall key | key in ca
      ensures ValueMatches(config.fields[key], ca[key])
    {
      assert ca[key][0] in ca[key];
    }
    forall key | key in cb
      ensures ValueMatches(config.fields[key], cb[key])
    {
      assert cb[key][0] in cb[key];
    }
  }

  lemma UnionAt(ca: Clause, cb: Clause, key: string)
    requires key in ca && key in cb
    ensures key in Union(ca, cb) && Union(ca, cb)[key] == Common(ca[key], cb[key])
  {
  }

  /** Exactly then merging two clauses loses no configuration: when their common values are spelled alike. */
  lemma MergeExact(ca: Clause, cb: Clause)
    requires NonEmptyLists(ca) && NonEmptyLists(cb)
    ensures Spelled(ca, cb) <==>
            forall config :: ClauseMatches(ca, config) && ClauseMatches(cb, config) ==> !Clash(ca, cb) && ClauseMatches(Union(ca, cb), config)
  {
    hide Common, Union, Clash, Alike;
    if Spelled(ca, cb) {
      forall config | ClauseMatches(ca, config) && ClauseMatches(cb, config)
        ensures !Clash(ca, cb) && ClauseMatches(Union(ca, cb), config)
      {
        UnionComplete(ca, cb, config);
      }
    } else {
      var at :| at in ca && at in cb && !SameSpelling(ca[at], cb[at]);
      var v, w :| v in ca[at] && w in cb[at] && Alike(v, w)
                  && !exists u :: u in ca[at] && u in cb[at] && Alike(u, v);
      var config := Witness(ca, cb, at, v);
      WitnessMatches(ca, cb, at, v, w);
      assert config.fields[at] == Text(v);
      assert !ValueMatches(Text(v), Common(ca[at], cb[at]));
      UnionAt(ca, cb, at);
      assert !ClauseMatches(Union(ca, cb), config);
    }
  }

  // ----- Whole conditions.

  /** Entry `k` of the pairs is the merge of some pair of clauses. */
  lemma {:induction false} WithEachFrom(ca: Clause, b: Condition, k: nat) returns (j: nat)
    requires k < |WithEach(ca, b)|
    ensures j < |b| && !Clash(ca, b[j]) && WithEach(ca, b)[k] == Union(ca, b[j])
  {
    hide Clash, Union;
    var m := |b| - 1;
    if k < |WithEach(ca, b[..m])| {
      j := WithEachFrom(ca, b[..m], k);
    } else {
      j := m;
    }
  }

  lemma {:induction false} WithEachHas(ca: Clause, b: Condition, j: nat) returns (k: nat)
    requires j < |b| && !Clash(ca, b[j])
    ensures k < |WithEach(ca, b)| && WithEach(ca, b)[k] == Union(ca, b[j])
  {
    hide Clash, Union;
    var m := |b| - 1;
    if j < m {
      k := WithEachHas(ca, b[..m], j);
    } else {
      k := |WithEach(ca, b[..m])|;
    }
  }

  lemma {:induction false} AllPairsFrom(a: Condition, b: Condition, k: nat) returns (i: nat, j: nat)
    requires k < |AllPairs(a, b)|
    ensures i < |a| && j < |b| && !Clash(a[i], b[j]) && AllPairs(a, b)[k] == Union(a[i], b[j])
  {
    hide Clash, Union, WithEach;
    var m := |a| - 1;
    var front := AllPairs(a[..m], b);
    if k < |front| {
      i, j := AllPairsFrom(a[..m], b, k);
    } else {
      i := m;
      j := WithEachFrom(a[m], b, k - |front|);
    }
  }

  lemma {:induction false} AllPairsHas(a: Condition, b: Condition, i: nat, j: nat) returns (k: nat)
    requires i < |a| && j < |b| && !Clash(a[i], b[j])
    ensures k < |AllPairs(a, b)| && AllPairs(a, b)[k] == Union(a[i], b[j])
  {
    hide Clash, Union, WithEach;
    var m := |a| - 1;
    if i < m {
      k := AllPairsHas(a[..m], b, i, j);
    } else {
      k := WithEachHas(a[m], b, j);
      k := |AllPairs(a[..m], b)| + k;
    }
  }

  /** Every clause of one condition is spelled like every clause of the other. */
  predicate AllSpelled(a: Condition, b: Condition) {
    forall i, j :: 0 <= i < |a| && 0 <= j < |b| ==> Spelled(a[i], b[j])
  }

  /** A configuration that matches a merged clause matches both conditions, whatever the spelling. */
  lemma PairsSound(a: Condition, b: Condition, config: Json)
    requires AllPairs(a, b) != [] && Matches(AllPairs(a, b), config)
    ensures Matches(a, config) && Matches(b, config)
  {
    hide AllPairs, Union, Clash, ClauseMatches;
    var k :| 0 <= k < |AllPairs(a, b)| && ClauseMatches(AllPairs(a, b)[k], config);
    var i, j := AllPairsFrom(a, b, k);
    UnionSound(a[i], b[j], config);
  }

  lemma PairsComplete(a: Condition, b: Condition, config: Json)
    requires a != [] && b != [] && AllSpelled(a, b) && Matches(a, config) && Matches(b, config)
    ensures AllPairs(a, b) != [] && Matches(AllPairs(a, b), config)
  {
    hide AllPairs, Union, Clash, ClauseMatches, Spelled;
    var i :| 0 <= i < |a| && ClauseMatches(a[i], config);
    var j :| 0 <= j < |b| && ClauseMatches(b[j], config);
    assert Spelled(a[i], b[j]);
    UnionComplete(a[i], b[j], config);
    var k := AllPairsHas(a, b, i, j);
    assert ClauseMatches(AllPairs(a, b)[k], config);
  }

  /** Some clause of one condition can be merged with some clause of the other. */
  predicate SomePairFits(a: Condition, b: Condition) {
    exists i, j :: 0 <= i < |a| && 0 <= j < |b| && !Clash(a[i], b[j])
  }

  lemma PairsFromFits(a: Condition, b: Condition)
    ensures AllPairs(a, b) != [] <==> SomePairFits(a, b)
  {
    hide Clash, AllPairs, Union;
    if AllPairs(a, b) != [] {
      var i, j := AllPairsFrom(a, b, 0);
    }
    if SomePairFits(a, b) {
      var i, j :| 0 <= i < |a| && 0 <= j < |b| && !Clash(a[i], b[j]);
      var k := AllPairsHas(a, b, i, j);
    }
  }

  lemma CombinedFits(a: Condition, b: Condition)
    requires a != [] && b != []
    ensures Combined(a, b) != [] <==> SomePairFits(a, b)
  {
    hide AllPairs, SomePairFits;
    PairsFromFits(a, b);
  }

  /** The combination means that both conditions hold, exactly if one of them is empty or some clauses of the two have
      no clash: when all pairs clash, the combination is empty and is read as "always". */
  lemma CombinedMeansBoth(a: Condition, b: Condition)
    requires AllSpelled(a, b)
    ensures a == [] || b == [] || SomePairFits(a, b) <==>
            forall config :: Matches(Combined(a, b), config) <==> Matches(a, config) && Matches(b, config)
  {
    hide AllPairs, AllSpelled, ClauseMatches, SomePairFits;
    PairsFromFits(a, b);
    if a == [] || b == [] {
    } else if AllPairs(a, b) == [] {
      if Matches(a, Null) && Matches(b, Null) {
        PairsComplete(a, b, Null);
      }
      assert Matches(Combined(a, b), Null);
    } else {
      forall config
        ensures Matches(AllPairs(a, b), config) <==> Matches(a, config) && Matches(b, config)
      {
        if Matches(AllPairs(a, b), config) {
          PairsSound(a, b, config);
        } else if Matches(a, config) && Matches(b, config) {
          PairsComplete(a, b, config);
        }
      }
    }
  }

  lemma OneClause(c: Clause, config: Json)
    ensures Matches([c], config) <==> ClauseMatches(c, config)
  {
    hide ClauseMatches;
    assert [c][0] == c;
  }

  lemma OnePair(ca: Clause, cb: Clause)
    ensures Combined([ca], [cb]) == if Clash(ca, cb) then [] else [Union(ca, cb)]
  {
    hide Clash, Union;
    assert [ca][..0] == [] && [cb][..0] == [];
    assert AllPairs([ca][..0], [cb]) == [] && WithEach(ca, [cb][..0]) == [];
    assert WithEach(ca, [cb]) == if Clash(ca, cb) then [] else [Union(ca, cb)];
    assert AllPairs([ca], [cb]) == WithEach(ca, [cb]);
  }

  /** For conditions of one clause each nothing need be assumed about spelling: the combination means both exactly if
      the clauses have no clash and their common values are spelled alike. */
  lemma OneClauseExact(ca: Clause, cb: Clause)
    requires NonEmptyLists(ca) && NonEmptyLists(cb)
    ensures !Clash(ca, cb) && Spelled(ca, cb) <==>
            forall config :: Matches(Combined([ca], [cb]), config) <==> Matches([ca], config) && Matches([cb], config)
  {
    hide Combined, Spelled, Union, Matches;
    OnePair(ca, cb);
    MergeExact(ca, cb);
    forall config
      ensures Matches([ca], config) <==> ClauseMatches(ca, config)
      ensures Matches([cb], config) <==> ClauseMatches(cb, config)
      ensures Matches([Union(ca, cb)], config) <==> ClauseMatches(Union(ca, cb), config)
      ensures ClauseMatches(Union(ca, cb), config) ==> ClauseMatches(ca, config) && ClauseMatches(cb, config)
    {
      OneClause(ca, config);
      OneClause(cb, config);
      OneClause(Union(ca, cb), config);
      if ClauseMatches(Union(ca, cb), config) {
        UnionSound(ca, cb, config);
      }
    }
    if Clash(ca, cb) {
      EmptyMatches(Null);
      assert !ClauseMatches(ca, Null);
      assert Matches(Combined([ca], [cb]), Null) && !Matches([ca], Null);
    } else if !Spelled(ca, cb) {
      var config :| ClauseMatches(ca, config) && ClauseMatches(cb, config) && !ClauseMatches(Union(ca, cb), config);
      assert Matches([ca], config) && Matches([cb], config) && !Matches(Combined([ca], [cb]), config);
    } else {
      assert Combined([ca], [cb]) == [Union(ca, cb)];
      forall config
        ensures Matches(Combined([ca], [cb]), config) <==> Matches([ca], config) && Matches([cb], config)
      {
        assert ClauseMatches(ca, config) && ClauseMatches(cb, config) ==> ClauseMatches(Union(ca, cb), config);
      }
    }
  }

  lemma EmptyMatches(config: Json)
    ensures Matches([], config)
  {
  }

  /** A merged clause can be matched. */
  lemma UnionSatisfiable(ca: Clause, cb: Clause) returns (config: Json)
    requires NonEmptyLists(ca) && NonEmptyLists(cb) && !Clash(ca, cb)
    ensures ClauseMatches(ca, config) && ClauseMatches(cb, config)
  {
    var u := Union(ca, cb);
    forall key | key in u
      ensures u[key] != []
    {
    }
    config := Object(map key | key in u :: Text(u[key][0]));
    forall key | key in u
      ensures ValueMatches(config.fields[key], u[key])
    {
      assert u[key][0] in u[key];
    }
    UnionSound(ca, cb, config);
  }

  /** All clauses are dropped exactly if no configuration can match both conditions. */
  lemma CombinedEmptyIff(a: Condition, b: Condition)
    requires a != [] && b != [] && AllSpelled(a, b)
    requires NonEmptyCondition(a) && NonEmptyCondition(b)
    ensures Combined(a, b) == [] <==> forall config :: !(Matches(a, config) && Matches(b, config))
  {
    hide AllPairs, AllSpelled, ClauseMatches, NonEmptyLists, Union, Clash;
    if AllPairs(a, b) == [] {
      forall config
        ensures !(Matches(a, config) && Matches(b, config))
      {
        if Matches(a, config) && Matches(b, config) {
          PairsComplete(a, b, config);
        }
      }
    } else {
      var i, j := AllPairsFrom(a, b, 0);
      var config := UnionSatisfiable(a[i], b[j]);
      assert Matches(a, config) && Matches(b, config);
    }
  }

  predicate NonEmptyCondition(c: Condition) {
    forall i :: 0 <= i < |c| ==> NonEmptyLists(c[i])
  }

  /** Combining keeps all lists non-empty, and all values in lower case. */
  lemma CombinedKeeps(a: Condition, b: Condition)
    ensures NonEmptyCondition(a) && NonEmptyCondition(b) ==> NonEmptyCondition(Combined(a, b))
    ensures LowerCase(a) && LowerCase(b) ==> LowerCase(Combined(a, b))
  {
    hide AllPairs, ToLower, Clash;
    if a != [] && b != [] {
      forall k | 0 <= k < |AllPairs(a, b)|
        ensures NonEmptyCondition(a) && NonEmptyCondition(b) ==> NonEmptyLists(AllPairs(a, b)[k])
        ensures LowerCase(a) && LowerCase(b) ==> LowerClause(AllPairs(a, b)[k])
      {
        var i, j := AllPairsFrom(a, b, k);
        UnionKeeps(a[i], b[j]);
      }
    }
  }

  lemma UnionKeeps(ca: Clause, cb: Clause)
    requires !Clash(ca, cb)
    ensures NonEmptyLists(ca) && NonEmptyLists(cb) ==> NonEmptyLists(Union(ca, cb))
    ensures LowerClause(ca) && LowerClause(cb) ==> LowerClause(Union(ca, cb))
  {
    hide ToLower;
  }

  /** A condition with non-empty lists can be matched. */
  lemma Satisfiable(c: Condition) returns (config: Json)
    requires NonEmptyCondition(c)
    ensures Matches(c, config)
  {
    if c == [] {
      config := Null;
    } else {
      assert !Clash(c[0], map[]) && NonEmptyLists(map[]);
      config := UnionSatisfiable(c[0], map[]);
    }
  }

  predicate LowerClause(c: Clause) {
    forall key, v :: key in c && v in c[key] ==> ToLower(v) == v
  }

  predicate LowerCase(c: Condition) {
    forall i :: 0 <= i < |c| ==> LowerClause(c[i])
  }

  /** Lower-case lists are spelled alike. */
  lemma LowerCaseSpelled(a: Condition, b: Condition)
    requires LowerCase(a) && LowerCase(b)
    ensures AllSpelled(a, b)
  {
    hide ToLower;
    forall i, j, key | 0 <= i < |a| && 0 <= j < |b| && key in a[i] && key in b[j]
      ensures SameSpelling(a[i][key], b[j][key])
    {
      forall v, w | v in a[i][key] && w in b[j][key] && Alike(v, w)
        ensures v == w
      {
      }
    }
  }

  ghost predicate Misread(a: Condition, b: Condition, config: Json) {
    && Combined(a, b) == [] && !AllSpelled(a, b)
    && Matches(a, config) && Matches(b, config)
    && Matches(Combined(a, b), Null) && !Matches(a, Null) && !Matches(b, Null)
  }

  lemma DifferentSpelling(key: string, v: string, w: string)
    requires v != w && Alike(v, w)
    ensures Misread([map[key := [v]]], [map[key := [w]]], Object(map[key := Text(w)]))
  {
    hide ToLower;
    var ca: Clause, cb: Clause := map[key := [v]], map[key := [w]];
    assert [v][..0] == [];
    assert Common([v], [w]) == [];
    assert key in ca && key in cb && Clash(ca, cb);
    assert [cb][..0] == [] && [ca][..0] == [];
    assert WithEach(ca, [cb]) == [];
    assert v in ca[key] && w in cb[key];
    assert !Spelled(ca, cb);
    assert [ca][0] == ca && [cb][0] == cb;
    assert v in [v] && w in [w];
    assert ValueMatches(Text(w), [v]) && ValueMatches(Text(w), [w]);
    var config := Object(map[key := Text(w)]);
    assert AllPairs([ca], [cb]) == [] && Combined([ca], [cb]) == [];
    assert ClauseMatches([ca][0], config) && ClauseMatches([cb][0], config);
    assert Matches([ca], config) && Matches([cb], config);
    assert !ClauseMatches(ca, Null) && !ClauseMatches(cb, Null);
    assert !AllSpelled([ca], [cb]) by {
      assert !Spelled([ca][0], [cb][0]);
    }
  }

  /** Differently spelled values: a configuration matches both conditions, yet the combination drops the pair, and is
      then read as "always", so that it also holds where neither condition does. */
  lemma SpellingMatters()
    ensures Misread([map["backend" := ["CUDA"]]], [map["backend" := ["cuda"]]], Object(map["backend" := Text("cuda")]))
  {
    assert "CUDA"[0] != "cuda"[0];
    DifferentSpelling("backend", "CUDA", "cuda");
  }
}
