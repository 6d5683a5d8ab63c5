/** Move-to-front coding has no redundancy: every list of symbols that decodes to some bytes is the list that the encoder
    emits for them.
 */
module MtfUnique {
  import opened Bits
  import opened BlockParser
  import opened BlockPrinter
  import opened MoveToFront
  import opened MtfEncoder
  import opened Permutations
  import opened Rotations

  lemma MoveFrontDistinct(s: seq<Byte>, j: nat)
    requires Distinct(s) && j < |s|
    ensures Distinct(MoveFront(s, j))
  {
  }

  lemma {:induction false} CodedDistinct(n: nat, ll: seq<Byte>)
    requires n <= 256 && Positions(ll, n)
    ensures Distinct(Coded(n, ll).yy)
  {
    if ll != [] {
      var k := |ll| - 1;
      CodedDistinct(n, ll[..k]);
      var yy := Coded(n, ll[..k]).yy;
      MoveFrontDistinct(yy, Pos(yy, ll[k]));
    }
  }

  lemma RunOfDigit(b: Symbol, z: nat)
    requires b <= RUNB
    ensures Run(b + 1 + 2 * z) == [b] + Run(z)
  {
  }

  /** One more digit on top of a run. */
  lemma {:induction false} RunSnoc(z: nat, a: Symbol)
    requires a <= RUNB
    ensures Run(z + (a + 1) * Pow2(|Run(z)|)) == Run(z) + [a]
    decreases z
  {
    hide Run;
    NoRun([]);
    if z == 0 {
      RunOfDigit(a, 0);
      NoRun([a]);
    } else {
      var b, z' := RunSplit(z);
      RunSnoc(z', a);
      var p := Pow2(|Run(z')|);
      assert Pow2(|Run(z)|) == 2 * p;
      OnTop(z, z', a, b, p);
      RunOfDigit(b, z' + (a + 1) * p);
      assert [b] + (Run(z') + [a]) == [b] + Run(z') + [a];
    }
  }

  lemma OnTop(z: nat, z': nat, a: nat, b: nat, p: nat)
    requires z == b + 1 + 2 * z'
    ensures z + (a + 1) * (2 * p) == b + 1 + 2 * (z' + (a + 1) * p)
  {
  }

  lemma NoRun(s: seq<Symbol>)
    ensures Run(0) == [] && s + Run(0) == s && Run(0) + s == s && Pow2(0) == 1
  {
  }

  lemma {:induction false} CodedZeros(n: nat, ll: seq<Byte>, x: Byte, k: nat)
    requires n <= 256 && Positions(ll, n) && |Coded(n, ll).yy| > 0 && x == Coded(n, ll).yy[0] && x < n
    ensures Positions(ll + Repeat(x, k), n)
    ensures Coded(n, ll + Repeat(x, k)) == Coded(n, ll).(zPend := Coded(n, ll).zPend + k)
  {
    if k == 0 {
      assert ll + Repeat(x, 0) == ll;
    } else {
      CodedZeros(n, ll, x, k - 1);
      var l := ll + Repeat(x, k);
      assert l[..|l| - 1] == ll + Repeat(x, k - 1) && l[|l| - 1] == x;
    }
  }

  /** The symbols so far are those emitted for `ll`, and then the digits of the pending run. */
  ghost predicate Matches(m: seq<Byte>, n: nat, syms: seq<Symbol>, d: Decoder, ll: seq<Byte>) {
    && |m| == |d.yy| == 256 && 1 <= n <= 256 && Positions(ll, n)
    && Coded(n, ll).zPend == 0 && syms == Coded(n, ll).out + Run(d.run) && d.weight == Pow2(|Run(d.run)|)
    && d.yy[..n] == Coded(n, ll).yy && d.out == Bytes(m, ll)
  }

  lemma DigitMatches(m: seq<Byte>, n: nat, syms: seq<Symbol>, d: Decoder, ll: seq<Byte>, a: Symbol)
    requires Matches(m, n, syms, d, ll) && a <= RUNB
    ensures Matches(m, n, syms + [a], DecoderStep(m, d, a), ll)
  {
    hide Run, Coded, Bytes, Positions;
    RunSnoc(d.run, a);
    assert Coded(n, ll).out + Run(d.run) + [a] == Coded(n, ll).out + (Run(d.run) + [a]);
  }

  /** The pending run as positions. */
  function WithRun(ll: seq<Byte>, d: Decoder): seq<Byte>
    requires |d.yy| > 0
  {
    ll + Repeat(d.yy[0], d.run)
  }

  lemma RunMatches(m: seq<Byte>, n: nat, syms: seq<Symbol>, d: Decoder, ll: seq<Byte>)
    requires Matches(m, n, syms, d, ll)
    ensures var l, c := WithRun(ll, d), Coded(n, ll);
            && Positions(l, n) && Coded(n, l) == c.(zPend := d.run)
            && Flushed(m, d).out == Bytes(m, l) && syms == c.out + Run(d.run)
  {
    var c := Coded(n, ll);
    assert d.yy[..n][0] == d.yy[0];
    FrontBelow(n, ll);
    CodedZeros(n, ll, d.yy[0], d.run);
    assert Bytes(m, WithRun(ll, d)) == Bytes(m, ll) + Repeat(m[d.yy[0]], d.run);
  }

  lemma {:induction false} FrontBelow(n: nat, ll: seq<Byte>)
    requires 1 <= n <= 256 && Positions(ll, n)
    ensures forall i :: 0 <= i < n ==> Coded(n, ll).yy[i] < n
  {
    if ll != [] {
      FrontBelow(n, ll[..|ll| - 1]);
    }
  }

  lemma PrefixMoves(s: seq<Byte>, n: nat, j: nat)
    requires j < n <= |s| && Distinct(s[..n])
    ensures MoveFront(s, j)[..n] == MoveFront(s[..n], j) && s[j] in s[..n] && s[..n][j] == s[j] && s[..n][0] == s[0]
    ensures Pos(s[..n], s[j]) == j
  {
  }

  lemma PositionMatches(m: seq<Byte>, n: nat, syms: seq<Symbol>, d: Decoder, ll: seq<Byte>, j: nat)
    requires Matches(m, n, syms, d, ll) && 1 <= j < n
    ensures Matches(m, n, syms + [j + 1], DecoderStep(m, d, j + 1), WithRun(ll, d) + [d.yy[j]])
  {
    hide Run, MoveFront, Pos, Distinct, Positions;
    RunMatches(m, n, syms, d, ll);
    var l, c, x := WithRun(ll, d), Coded(n, ll), d.yy[j];
    FrontBelow(n, ll);
    CodedDistinct(n, ll);
    PrefixMoves(d.yy, n, j);
    assert x != c.yy[0] by {
      DistinctAt(c.yy, j);
    }
    assert (l + [x])[..|l|] == l;
    PositionsPush(l, n, x);
    assert Coded(n, l + [x]) == CoderStep(Coded(n, l), x);
    assert Bytes(m, l + [x]) == Bytes(m, l) + [m[x]];
    NoRun(c.out + Run(d.run) + [j + 1]);
  }

  lemma DistinctAt(s: seq<Byte>, j: nat)
    requires Distinct(s) && 1 <= j < |s|
    ensures s[j] != s[0]
  {
  }

  lemma PositionsPush(ll: seq<Byte>, n: nat, x: Byte)
    requires Positions(ll, n) && x < n
    ensures Positions(ll + [x], n)
  {
  }

  lemma {:induction false} AllMatch(m: seq<Byte>, n: nat, syms: seq<Symbol>) returns (ll: seq<Byte>)
    requires |m| == 256 && 1 <= n <= 256 && SymbolsUpTo(syms, n)
    ensures Matches(m, n, syms, Fed(m, StartDecoder(), syms), ll)
    decreases |syms|
  {
    hide Matches;
    if syms == [] {
      ll := [];
      StartMatches(m, n);
    } else {
      var k := |syms| - 1;
      ll := AllMatch(m, n, syms[..k]);
      var d := Fed(m, StartDecoder(), syms[..k]);
      assert syms == syms[..k] + [syms[k]];
      if syms[k] <= RUNB {
        DigitMatches(m, n, syms[..k], d, ll, syms[k]);
      } else {
        var j := syms[k] - 1;
        PositionMatches(m, n, syms[..k], d, ll, j);
        ll := WithRun(ll, d) + [d.yy[j]];
      }
    }
  }

  lemma StartMatches(m: seq<Byte>, n: nat)
    requires |m| == 256 && 1 <= n <= 256
    ensures Matches(m, n, [], StartDecoder(), [])
  {
    assert StartDecoder().yy[..n] == Identity(n);
    NoRun([]);
  }

  /** The symbols are those emitted for what they decode to. */
  lemma SymbolsUnique(m: seq<Byte>, n: nat, syms: seq<Symbol>) returns (ll: seq<Byte>)
    requires |m| == 256 && 1 <= n <= 256 && SymbolsUpTo(syms, n)
    ensures Positions(ll, n) && MtfSymbols(n, ll) == syms + [n + 1]
    ensures Flushed(m, Fed(m, StartDecoder(), syms)).out == Bytes(m, ll)
  {
    ll := AllMatch(m, n, syms);
    var d := Fed(m, StartDecoder(), syms);
    RunMatches(m, n, syms, d, ll);
    ll := WithRun(ll, d);
  }

  lemma {:induction false} UsedOf(used: seq<bool>, i: nat, c: nat)
    requires c <= |used| <= 256 && i < Used(used, c)
    ensures var x := UsedList(used, c)[i];
            x < c && used[x] && Used(used, x) == i
    decreases c
  {
    if i < Used(used, c - 1) {
      UsedOf(used, i, c - 1);
    }
  }

  /** The same of the bytes: what the symbols decode to consists of bytes in use, and they are its symbols. */
  lemma ColumnSymbols(used: seq<bool>, syms: seq<Symbol>)
    requires UsedOk(used) && SymbolsUpTo(syms, Used(used, 256))
    ensures var m := SeqToUnseq(used);
            var column := Flushed(m, Fed(m, StartDecoder(), syms)).out;
            AllUsed(used, column) && SymbolsFor(used, column) == syms + [Used(used, 256) + 1]
  {
    var m, n := SeqToUnseq(used), Used(used, 256);
    var ll := SymbolsUnique(m, n, syms);
    var column := Bytes(m, ll);
    forall i | 0 <= i < |ll|
      ensures used[column[i]] && Used(used, column[i]) == ll[i]
    {
      UsedOf(used, ll[i], 256);
      assert m[..n][ll[i]] == m[ll[i]];
    }
    assert Seqs(used, column) == ll;
  }
}
