/** Questions about all configurations, decided on the clauses alone.

    What a configuration can hold matters only up to upper and lower case and only under the keys of a clause, so it is
    enough to look at the choices of one allowed value under every key.
 */
module EpImplication {
  import opened EpConditions

  /** One value under each of some keys. */
  type Values = map<string, string>

  /** One of the allowed values for every key of the clause. */
  predicate Choice(s: Values, clause: Clause) {
    s.Keys == clause.Keys && forall key :: key in clause ==> s[key] in clause[key]
  }

  /** Every key of the clause has a value, and it is one of those allowed. */
  predicate Allows(clause: Clause, s: Values) {
    forall key :: key in clause ==> key in s && AllowsValue(clause[key], s[key])
  }

  predicate AllowsValue(allowed: seq<string>, v: string) {
    exists w :: w in allowed && Alike(w, v)
  }

  /** The configuration with just these values. */
  function ConfigOf(s: Values): Json {
    Object(map key | key in s :: Text(s[key]))
  }

  /** The configuration has these values, among others. */
  predicate Has(config: Json, s: Values) {
    config.Object? && forall key :: key in s ==>
      key in config.fields && Actual(config.fields[key]).Some? && Alike(s[key], Actual(config.fields[key]).value)
  }

  lemma AllowsMatches(clause: Clause, s: Values)
    ensures ClauseMatches(clause, ConfigOf(s)) <==> Allows(clause, s)
  {
    hide Alike;
    forall key | key in clause && key in s
      ensures ValueMatches(ConfigOf(s).fields[key], clause[key]) <==> AllowsValue(clause[key], s[key])
    {
    }
  }

  /** What allows the values is matched by every configuration that has them. */
  lemma HasMatches(clause: Clause, s: Values, config: Json)
    requires Allows(clause, s) && Has(config, s)
    ensures ClauseMatches(clause, config)
  {
    forall key | key in clause
      ensures ValueMatches(config.fields[key], clause[key])
    {
      var w :| w in clause[key] && Alike(w, s[key]);
      assert Alike(w, Actual(config.fields[key]).value);
    }
  }

  /** The values of a matching configuration, spelled as in the clause. */
  lemma ChoiceOf(clause: Clause, config: Json) returns (s: Values)
    requires ClauseMatches(clause, config)
    ensures Choice(s, clause) && (clause != map[] ==> Has(config, s)) && (config.Object? ==> Has(config, s))
  {
    hide Alike;
    s := map key | key in clause :: Candidate(clause[key], config.fields[key]);
  }

  ghost function Candidate(allowed: seq<string>, value: Json): (v: string)
    requires ValueMatches(value, allowed)
    ensures v in allowed && Alike(v, Actual(value).value)
  {
    var v :| v in allowed && Alike(v, Actual(value).value);
    v
  }

  /** The clauses of a condition; an empty one is a single clause that asks for nothing. */
  function Clauses(c: Condition): (r: Condition)
    ensures r != []
  {
    if c == [] then [map[]] else c
  }

  lemma ClausesMatch(c: Condition, config: Json)
    ensures Matches(c, config) <==> exists i :: 0 <= i < |Clauses(c)| && ClauseMatches(Clauses(c)[i], config)
  {
    hide ClauseMatches;
    if c == [] {
      NoKeys(config);
      var all := Clauses(c);
      assert all[0] == map[] && ClauseMatches(all[0], config);
    } else {
      assert Clauses(c) == c;
    }
  }

  lemma NoKeys(config: Json)
    ensures ClauseMatches(map[], config)
  {
  }

  /** Every choice from a clause of `c` is allowed by a clause of `d`. */
  ghost predicate Covered(c: Condition, d: Condition) {
    forall i, s :: 0 <= i < |Clauses(c)| && Choice(s, Clauses(c)[i]) ==> AllowedBy(d, s)
  }

  predicate AllowedBy(d: Condition, s: Values) {
    exists j :: 0 <= j < |Clauses(d)| && Allows(Clauses(d)[j], s)
  }

  lemma AllowedByMatches(d: Condition, s: Values)
    ensures Matches(d, ConfigOf(s)) <==> AllowedBy(d, s)
  {
    hide ClauseMatches, Allows, Clauses;
    ClausesMatch(d, ConfigOf(s));
    forall j | 0 <= j < |Clauses(d)|
      ensures ClauseMatches(Clauses(d)[j], ConfigOf(s)) <==> Allows(Clauses(d)[j], s)
    {
      AllowsMatches(Clauses(d)[j], s);
    }
  }

  lemma ChoiceAllowed(s: Values, clause: Clause)
    requires Choice(s, clause)
    ensures Allows(clause, s)
  {
    forall key | key in clause
      ensures AllowsValue(clause[key], s[key])
    {
      assert Alike(s[key], s[key]);
    }
  }

  /** One condition implies another exactly if it is covered. */
  lemma ImpliesIff(c: Condition, d: Condition)
    ensures Covered(c, d) <==> forall config :: Matches(c, config) ==> Matches(d, config)
  {
    hide Matches, ClauseMatches, Allows, Choice, Has, Clauses, AllowedBy;
    if Covered(c, d) {
      forall config | Matches(c, config)
        ensures Matches(d, config)
      {
        CoveredMatches(c, d, config);
      }
    } else {
      var i, s :| 0 <= i < |Clauses(c)| && Choice(s, Clauses(c)[i]) && !AllowedBy(d, s);
      ChoiceAllowed(s, Clauses(c)[i]);
      AllowsMatches(Clauses(c)[i], s);
      ClausesMatch(c, ConfigOf(s));
      AllowedByMatches(d, s);
    }
  }

  lemma CoveredMatches(c: Condition, d: Condition, config: Json)
    requires Covered(c, d) && Matches(c, config)
    ensures Matches(d, config)
  {
    hide Matches, ClauseMatches, Allows, Choice, Has, Clauses;
    ClausesMatch(c, config);
    var i :| 0 <= i < |Clauses(c)| && ClauseMatches(Clauses(c)[i], config);
    var s := ChoiceOf(Clauses(c)[i], config);
    assert AllowedBy(d, s);
    var j :| 0 <= j < |Clauses(d)| && Allows(Clauses(d)[j], s);
    MatchesToo(Clauses(c)[i], Clauses(d)[j], s, config);
    ClausesMatch(d, config);
  }

  /** A configuration that is no object only matches a clause that asks for nothing; then nothing was chosen. */
  lemma MatchesToo(c: Clause, d: Clause, s: Values, config: Json)
    requires Choice(s, c) && (c != map[] ==> Has(config, s)) && (config.Object? ==> Has(config, s)) && Allows(d, s)
    ensures ClauseMatches(d, config)
  {
    hide Alike, AllowsValue;
    if config.Object? {
      HasMatches(d, s, config);
    } else {
      assert forall key :: key !in d;
    }
  }

  // ----- The combination of two conditions, whatever the spelling.

  /** One value for every key of either clause, allowed by both. */
  predicate JointChoice(s: Values, ca: Clause, cb: Clause) {
    && s.Keys == ca.Keys + cb.Keys && Allows(cb, s)
    && forall key :: key in s ==> s[key] in if key in ca then ca[key] else cb[key]
  }

  /** Some clauses that can be merged allow the values. */
  predicate MergeAllows(a: Condition, b: Condition, s: Values) {
    exists i, j :: 0 <= i < |a| && 0 <= j < |b| && !Clash(a[i], b[j]) && Allows(Union(a[i], b[j]), s)
  }

  /** Everything that two clauses allow together is allowed by some clause of the combination. */
  ghost predicate NoneLost(a: Condition, b: Condition) {
    forall i, j, s :: 0 <= i < |a| && 0 <= j < |b| && JointChoice(s, a[i], b[j]) ==> MergeAllows(a, b, s)
  }

  lemma JointMatches(s: Values, ca: Clause, cb: Clause)
    requires JointChoice(s, ca, cb)
    ensures ClauseMatches(ca, ConfigOf(s)) && ClauseMatches(cb, ConfigOf(s))
  {
    forall key | key in ca
      ensures AllowsValue(ca[key], s[key])
    {
      assert s[key] in ca[key] && Alike(s[key], s[key]);
    }
    AllowsMatches(ca, s);
    AllowsMatches(cb, s);
  }

  lemma JointOf(ca: Clause, cb: Clause, config: Json) returns (s: Values)
    requires ClauseMatches(ca, config) && ClauseMatches(cb, config) && config.Object?
    ensures JointChoice(s, ca, cb) && Has(config, s)
  {
    hide Alike;
    s := map key | key in ca.Keys + cb.Keys :: if key in ca then Candidate(ca[key], config.fields[key]) else Candidate(cb[key], config.fields[key]);
    forall key | key in cb
      ensures AllowsValue(cb[key], s[key])
    {
      var w := Candidate(cb[key], config.fields[key]);
      AlikeVia(w, s[key], Actual(config.fields[key]).value);
    }
  }

  /** A merged clause is in the combination. */
  lemma MergeMatches(a: Condition, b: Condition, config: Json)
    requires a != [] && b != [] && SomePairFits(a, b)
    ensures Matches(Combined(a, b), config) <==>
            exists i, j :: 0 <= i < |a| && 0 <= j < |b| && !Clash(a[i], b[j]) && ClauseMatches(Union(a[i], b[j]), config)
  {
    hide AllPairs, ClauseMatches, Clash, Union;
    PairsFromFits(a, b);
    if Matches(Combined(a, b), config) {
      var k :| 0 <= k < |AllPairs(a, b)| && ClauseMatches(AllPairs(a, b)[k], config);
      var i, j := AllPairsFrom(a, b, k);
    }
    if i, j :| 0 <= i < |a| && 0 <= j < |b| && !Clash(a[i], b[j]) && ClauseMatches(Union(a[i], b[j]), config) {
      var k := AllPairsHas(a, b, i, j);
      assert ClauseMatches(AllPairs(a, b)[k], config);
    }
  }

  /** The combination of two non-empty conditions means both of them exactly if some clauses can be merged and nothing is
      lost; nothing is assumed about spelling or about empty lists. */
  lemma CombinedExact(a: Condition, b: Condition)
    requires a != [] && b != []
    ensures SomePairFits(a, b) && NoneLost(a, b) <==>
            forall config :: Matches(Combined(a, b), config) <==> Matches(a, config) && Matches(b, config)
  {
    hide Matches, Combined, SomePairFits, NoneLost;
    if !SomePairFits(a, b) {
      NoPairFits(a, b);
    } else if NoneLost(a, b) {
      forall config
        ensures Matches(Combined(a, b), config) <==> Matches(a, config) && Matches(b, config)
      {
        CombinedSound(a, b, config);
        if Matches(a, config) && Matches(b, config) {
          CombinedComplete(a, b, config);
        }
      }
    } else {
      var s := LostConfig(a, b);
    }
  }

  lemma CombinedSound(a: Condition, b: Condition, config: Json)
    requires a != [] && b != [] && SomePairFits(a, b)
    ensures Matches(Combined(a, b), config) ==> Matches(a, config) && Matches(b, config)
  {
    hide AllPairs, SomePairFits, ClauseMatches;
    PairsFromFits(a, b);
    if Matches(Combined(a, b), config) {
      PairsSound(a, b, config);
    }
  }

  lemma CombinedComplete(a: Condition, b: Condition, config: Json)
    requires a != [] && b != [] && SomePairFits(a, b) && NoneLost(a, b) && Matches(a, config) && Matches(b, config)
    ensures Matches(Combined(a, b), config)
  {
    hide Combined, SomePairFits, Clash, Union, JointChoice, Has, Allows, ClauseMatches;
    var i :| 0 <= i < |a| && ClauseMatches(a[i], config);
    var j :| 0 <= j < |b| && ClauseMatches(b[j], config);
    MergeMatches(a, b, config);
    if config.Object? {
      var s := JointOf(a[i], b[j], config);
      assert MergeAllows(a, b, s);
      var i', j' :| 0 <= i' < |a| && 0 <= j' < |b| && !Clash(a[i'], b[j']) && Allows(Union(a[i'], b[j']), s);
      HasMatches(Union(a[i'], b[j']), s, config);
    } else {
      NoKeysMerge(a[i], b[j], config);
    }
  }

  lemma NoKeysMerge(ca: Clause, cb: Clause, config: Json)
    requires ClauseMatches(ca, config) && ClauseMatches(cb, config) && !config.Object?
    ensures !Clash(ca, cb) && ClauseMatches(Union(ca, cb), config)
  {
    assert forall key :: key !in ca && key !in cb;
  }

  lemma LostConfig(a: Condition, b: Condition) returns (s: Values)
    requires a != [] && b != [] && SomePairFits(a, b) && !NoneLost(a, b)
    ensures Matches(a, ConfigOf(s)) && Matches(b, ConfigOf(s)) && !Matches(Combined(a, b), ConfigOf(s))
  {
    hide Combined, SomePairFits, Clash, Union, JointChoice, Allows, ClauseMatches, ConfigOf;
    var i, j, s' :| 0 <= i < |a| && 0 <= j < |b| && JointChoice(s', a[i], b[j]) && !MergeAllows(a, b, s');
    s := s';
    JointMatches(s, a[i], b[j]);
    MergeMatches(a, b, ConfigOf(s));
    forall i', j' | 0 <= i' < |a| && 0 <= j' < |b|
      ensures ClauseMatches(Union(a[i'], b[j']), ConfigOf(s)) <==> Allows(Union(a[i'], b[j']), s)
    {
      AllowsMatches(Union(a[i'], b[j']), s);
    }
  }

  /** When no clauses can be merged the combination is empty and holds always, although the conditions do not. */
  lemma NoPairFits(a: Condition, b: Condition)
    requires a != [] && b != [] && !SomePairFits(a, b)
    ensures Combined(a, b) == [] && Matches(Combined(a, b), Null) && !(Matches(a, Null) && Matches(b, Null))
  {
    hide AllPairs, Clash, Union;
    PairsFromFits(a, b);
    if Matches(a, Null) && Matches(b, Null) {
      var i :| 0 <= i < |a| && ClauseMatches(a[i], Null);
      var j :| 0 <= j < |b| && ClauseMatches(b[j], Null);
      NoKeysMerge(a[i], b[j], Null);
    }
  }
}
