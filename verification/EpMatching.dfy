/** What matching means, letter by letter: which text a value of the configuration is compared by, when two texts are
    equal but for upper and lower case, and when a configuration meets a condition.
 */
module EpMatching {
  import opened EpConditions

  const UPPER_CASE := "ABCDEFGHIJKLMNOPQRSTUVWXYZ"
  const LOWER_CASE := "abcdefghijklmnopqrstuvwxyz"

  /** The same character, or the two cases of one of the 26 letters. */
  predicate SameLetter(c: char, d: char) {
    c == d || exists i :: 0 <= i < 26 && ((c == UPPER_CASE[i] && d == LOWER_CASE[i]) || (c == LOWER_CASE[i] && d == UPPER_CASE[i]))
  }

  predicate SameText(v: string, w: string) {
    |v| == |w| && forall i :: 0 <= i < |v| ==> SameLetter(v[i], w[i])
  }

  /** Strings are compared as they are, numbers by the text they are shown as, and the truth values by their names; objects,
      lists and null are not compared with anything. */
  ghost predicate ComparedBy(value: Json, s: string) {
    || value == Text(s) || value == Integer(s) || value == Float(s)
    || (value == Boolean(true) && s == "true") || (value == Boolean(false) && s == "false")
  }

  ghost predicate IsOneOf(value: Json, allowed: seq<string>) {
    exists v, s :: v in allowed && ComparedBy(value, s) && SameText(v, s)
  }

  /** The configuration gives every key of the clause one of its values. */
  ghost predicate Gives(config: Json, clause: Clause) {
    forall key :: key in clause ==> config.Object? && key in config.fields && IsOneOf(config.fields[key], clause[key])
  }

  /** No condition at all, or some clause of it. */
  ghost predicate Meets(config: Json, condition: Condition) {
    condition == [] || exists j :: 0 <= j < |condition| && Gives(config, condition[j])
  }

  lemma Letters()
    ensures |UPPER_CASE| == 26 && |LOWER_CASE| == 26
    ensures forall i :: 0 <= i < 26 ==> UPPER_CASE[i] == 'A' + i as char && LOWER_CASE[i] == 'a' + i as char
  {
  }

  lemma SameLetterIff(c: char, d: char)
    ensures Lower(c) == Lower(d) <==> SameLetter(c, d)
  {
    Letters();
    if Lower(c) == Lower(d) && c != d {
      var i := if 'A' <= c <= 'Z' then (c - 'A') as int else (d - 'A') as int;
      assert UPPER_CASE[i] == 'A' + i as char && LOWER_CASE[i] == 'a' + i as char;
      assert if 'A' <= c <= 'Z' then c == UPPER_CASE[i] && d == LOWER_CASE[i] else d == UPPER_CASE[i] && c == LOWER_CASE[i];
    }
  }

  lemma SameTextIff(v: string, w: string)
    ensures Alike(v, w) <==> SameText(v, w)
  {
    hide SameLetter, Lower;
    if |v| == |w| {
      forall i | 0 <= i < |v|
        ensures ToLower(v)[i] == ToLower(w)[i] <==> SameLetter(v[i], w[i])
      {
        SameLetterIff(v[i], w[i]);
      }
      if Alike(v, w) {
        forall i | 0 <= i < |v|
          ensures SameLetter(v[i], w[i])
        {
          assert ToLower(v)[i] == ToLower(w)[i];
        }
      }
    }
  }

  lemma ComparedByIff(value: Json, s: string)
    ensures ComparedBy(value, s) <==> Actual(value) == Some(s)
  {
  }

  lemma IsOneOfIff(value: Json, allowed: seq<string>)
    ensures ValueMatches(value, allowed) <==> IsOneOf(value, allowed)
  {
    hide Alike, SameText, ComparedBy, Actual;
    if ValueMatches(value, allowed) {
      var s := Actual(value).value;
      var v :| v in allowed && Alike(v, s);
      ComparedByIff(value, s);
      SameTextIff(v, s);
    }
    if IsOneOf(value, allowed) {
      var v, s :| v in allowed && ComparedBy(value, s) && SameText(v, s);
      ComparedByIff(value, s);
      SameTextIff(v, s);
    }
  }

  lemma GivesIff(config: Json, clause: Clause)
    ensures ClauseMatches(clause, config) <==> Gives(config, clause)
  {
    hide ValueMatches, IsOneOf;
    forall key | key in clause && config.Object? && key in config.fields
      ensures ValueMatches(config.fields[key], clause[key]) <==> IsOneOf(config.fields[key], clause[key])
    {
      IsOneOfIff(config.fields[key], clause[key]);
    }
  }

  /** ConditionMatchesConfig decides just this. */
  lemma MatchesMeets(condition: Condition, config: Json)
    ensures Matches(condition, config) <==> Meets(config, condition)
  {
    hide ClauseMatches, Gives;
    forall j | 0 <= j < |condition|
      ensures ClauseMatches(condition[j], config) <==> Gives(config, condition[j])
    {
      GivesIff(config, condition[j]);
    }
  }
}
