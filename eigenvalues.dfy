/** Reading the k-point weights and the eigenvalues SIESTA leaves in the
    `.KP` and `.EIG` files (`BaseSiesta.read_eigenvalues`,
    ase/calculators/siesta/base_siesta.py lines 656-697). Numbers that
    Python turns into floats are kept as their text tokens. */
module Eigenvalues {
  import opened Wrappers
  import opened Text

  /** The exceptions the reader raises. A token `float()` rejects is not
      modelled. */
  datatype ReadError =
    | IndexError          // a missing line or token
    | ValueError          // `int()` of a token that is not an integer
    | NegativeDimension   // `np.zeros` with a negative k-point count (a ValueError)

  /** `s[k]`, or the IndexError Python raises. */
  function At<T>(s: seq<T>, k: nat): (r: Result<T, ReadError>)
    ensures r.Success? <==> k < |s|
    ensures r.Success? ==> r.value == s[k]
  {
    if k < |s| then Success(s[k]) else Failure(IndexError)
  }

  /** `int(t)` of one token. */
  function IntToken(t: string): (r: Result<int, ReadError>)
    ensures r.Success? <==> ParseInt(t).Some?
    ensures r.Success? ==> Some(r.value) == ParseInt(t)
  {
    var n := ParseInt(t);
    if n.None? then Failure(ValueError) else Success(n.value)
  }

  /** Python's `xs[1:]`. */
  function Rest<T>(xs: seq<T>): seq<T>
  {
    if |xs| == 0 then [] else xs[1..]
  }

  /** Lines 682-683: `p / 10 + int(p % 10 != 0)` with Python's floor
      division, which Dafny's `/` and `%` agree with for the divisor 10.
      For a non-negative count it is the number of lines of ten. */
  function LinesPerKpoint(values: int): (n: int)
    ensures values >= 0 ==> 10 * (n - 1) < values <= 10 * n
  {
    values / 10 + (if values % 10 != 0 then 1 else 0)
  }

  // ---------------------------------------------------------------------
  // The .KP file: the count, then one line per k-point with the weight as
  // its fifth token (lines 664-670)
  // ---------------------------------------------------------------------

  /** Line 666 and the array of line 667. */
  function KpointCount(lines: seq<string>): (r: Result<nat, ReadError>)
    requires |lines| >= 1
    ensures r.Success? <==> ParseIntLine(lines[0]).Some? && ParseIntLine(lines[0]).value >= 0
    ensures r.Success? ==> ParseIntLine(lines[0]) == Some(r.value as int)
    ensures ParseIntLine(lines[0]).None? ==> r == Failure(ValueError)
    ensures ParseIntLine(lines[0]).Some? && ParseIntLine(lines[0]).value < 0 ==> r == Failure(NegativeDimension)
  {
    var n := ParseIntLine(lines[0]);
    if n.None? then Failure(ValueError)
    else if n.value < 0 then Failure(NegativeDimension)
    else Success(n.value)
  }

  /** A count line whose sign is parted from its digits by a space, as in
      `"+ 5"`: `int()` skips the space, so the count is read. */
  lemma SeparatedSignCount(sign: string, digits: string)
    requires (sign == "+" || sign == "-") && |digits| >= 1 && AllDigits(digits)
    ensures var v: int := DigitsValue(digits);
      KpointCount([sign + " " + digits])
        == if sign == "-" && v > 0 then Failure(NegativeDimension)
           else Success(if sign == "-" then -v else v)
  {
    ParseSeparatedSign(sign, digits);
  }

  /** `"+ 5"` gives five k-points and `"- 0"` none. */
  lemma SeparatedSignExamples()
    ensures KpointCount(["+ 5"]) == Success(5)
    ensures KpointCount(["- 0"]) == Success(0)
  {
    SeparatedSignCount("+", "5");
    assert "+" + " " + "5" == "+ 5";
    SeparatedSignCount("-", "0");
    assert "-" + " " + "0" == "- 0";
  }

  /** Line `k` exists and has a fifth token. */
  predicate HasWeight(lines: seq<string>, k: nat)
  {
    k < |lines| && |Words(lines[k])| >= 5
  }

  /** The weights of the first `n` k-points (the loop of lines 668-670):
      weight k is the fifth token of line k + 1, and a missing line or
      token is an IndexError. */
  function Weights(lines: seq<string>, n: nat): (r: Result<seq<string>, ReadError>)
    ensures r.Success? <==> forall k :: 1 <= k <= n ==> HasWeight(lines, k)
    ensures r.Failure? ==> r.error == IndexError
    ensures r.Success? ==> |r.value| == n
    ensures r.Success? ==> forall k :: 0 <= k < n ==> HasWeight(lines, k + 1) && r.value[k] == Words(lines[k + 1])[4]
  {
    if n == 0 then Success([])
    else
      var init := Weights(lines, n - 1);
      if init.Failure? then
        Failure(init.error)
      else
        assert (forall k :: 1 <= k <= n ==> HasWeight(lines, k)) ==> HasWeight(lines, n);
        var line :- At(lines, n);
        var w :- At(Words(line), 4);
        Success(init.value + [w])
  }

  /** What lines 664-670 compute from the text of the `.KP` file. */
  function WeightsOf(kpText: string): Result<seq<string>, ReadError>
  {
    var lines := Split(kpText, '\n');
    var n :- KpointCount(lines);
    Weights(lines, n)
  }

  lemma {:induction false} WeightsPrefixFailure(lines: seq<string>, k: nat, n: nat)
    requires k <= n && Weights(lines, k).Failure?
    ensures Weights(lines, n) == Weights(lines, k)
    decreases n - k
  {
    if k < n {
      WeightsPrefixFailure(lines, k + 1, n);
    }
  }

  /** Lines 664-670. */
  method ReadWeights(kpText: string) returns (r: Result<seq<string>, ReadError>)
    ensures r == WeightsOf(kpText)
  {
    var lines := Split(kpText, '\n');
    var count := KpointCount(lines);
    if count.Failure? {
      return Failure(count.error);
    }
    var n := count.value;
    var weights: seq<string> := [];
    for i := 0 to n
      invariant Weights(lines, i) == Success(weights)
    {
      if i + 1 >= |lines| {
        WeightsPrefixFailure(lines, i + 1, n);
        return Failure(IndexError);
      }
      var l := Words(lines[i + 1]);
      if |l| <= 4 {
        WeightsPrefixFailure(lines, i + 1, n);
        return Failure(IndexError);
      }
      weights := weights + [l[4]];
    }
    r := Success(weights);
  }

  // ---------------------------------------------------------------------
  // The .EIG file: the Fermi level, the band and spin counts, then the
  // values of each k-point (lines 673-694)
  // ---------------------------------------------------------------------

  datatype Header = Header(fermi: string, bands: int, spins: int)

  /** Lines 676-679, in the order Python evaluates them. */
  function ReadHeader(lines: seq<string>): (r: Result<Header, ReadError>)
    requires |lines| >= 1
    ensures r.Success? ==> |lines| >= 2 && |Words(lines[0])| >= 1 && |Words(lines[1])| >= 2
    ensures r.Success? ==> r.value.fermi == Words(lines[0])[0]
    ensures r.Success? ==> ParseInt(Words(lines[1])[0]) == Some(r.value.bands)
    ensures r.Success? ==> ParseInt(Words(lines[1])[1]) == Some(r.value.spins)
    ensures r.Success? <==>
      && |Words(lines[0])| >= 1 && |lines| >= 2 && |Words(lines[1])| >= 2
      && ParseInt(Words(lines[1])[0]).Some? && ParseInt(Words(lines[1])[1]).Some?
    ensures |Words(lines[0])| == 0 || |lines| < 2 ==> r == Failure(IndexError)
    ensures |Words(lines[0])| >= 1 && |lines| >= 2 ==>
      var tmp := Words(lines[1]);
      && (|tmp| == 0 ==> r == Failure(IndexError))
      && (|tmp| >= 1 && ParseInt(tmp[0]).None? ==> r == Failure(ValueError))
      && (|tmp| == 1 && ParseInt(tmp[0]).Some? ==> r == Failure(IndexError))
      && (|tmp| >= 2 && ParseInt(tmp[0]).Some? && ParseInt(tmp[1]).None? ==> r == Failure(ValueError))
  {
    var fermi :- At(Words(lines[0]), 0);
    var second :- At(lines, 1);
    var tmp := Words(second);
    var b :- At(tmp, 0);
    var bands :- IntToken(b);
    var s :- At(tmp, 1);
    var spins :- IntToken(s);
    Success(Header(fermi, bands, spins))
  }

  /** The tokens of consecutive lines, concatenated. */
  function WordsOfLines(ls: seq<string>): seq<string>
  {
    if |ls| == 0 then [] else Words(ls[0]) + WordsOfLines(ls[1..])
  }

  lemma {:induction false} WordsOfLinesSnoc(ls: seq<string>, l: string)
    ensures WordsOfLines(ls + [l]) == WordsOfLines(ls) + Words(l)
  {
    if |ls| == 0 {
      assert [l][1..] == [];
    } else {
      assert (ls + [l])[1..] == ls[1..] + [l];
      WordsOfLinesSnoc(ls[1..], l);
    }
  }

  /** Line 686: the lines of k-point `i`, the slice `[i * L:(i + 1) * L]`
      of the body. */
  function KpointSlice(body: seq<string>, i: nat, perKpoint: int): seq<string>
  {
    Slice(body, i * perKpoint, (i + 1) * perKpoint)
  }

  /** Lines 687-689: the values of one k-point's lines, the k-index token
      of the first line dropped; no line at all is an IndexError. */
  function KpointValues(tmp: seq<string>): (r: Result<seq<string>, ReadError>)
    ensures r.Failure? <==> |tmp| == 0
  {
    if |tmp| == 0 then Failure(IndexError)
    else Success(Rest(Words(tmp[0])) + WordsOfLines(tmp[1..]))
  }

  /** Lines 690-694: the values split into the two spin channels, or kept
      whole as channel 0. */
  function Store(m: map<(int, int), seq<string>>, i: int, v: seq<string>, bands: int, spinPolarized: bool)
    : map<(int, int), seq<string>>
  {
    if spinPolarized then m[(i, 0) := Slice(v, 0, bands)][(i, 1) := Slice(v, bands, |v|)]
    else m[(i, 0) := v]
  }

  /** The dictionary after the first `n` k-points: keys `(k, 0)`, and
      `(k, 1)` as well when spin-polarised. */
  function Eig(body: seq<string>, n: nat, perKpoint: int, bands: int, spinPolarized: bool)
    : (r: Result<map<(int, int), seq<string>>, ReadError>)
    ensures r.Failure? ==> n > 0
  {
    if n == 0 then Success(map[])
    else
      var m :- Eig(body, n - 1, perKpoint, bands, spinPolarized);
      var v :- KpointValues(KpointSlice(body, n - 1, perKpoint));
      Success(Store(m, n - 1, v, bands, spinPolarized))
  }

  /** The dictionary holds the values `v` of k-point `i`: split at
      `bands` between `(i, 0)` and `(i, 1)` when spin-polarised, whole
      under `(i, 0)` otherwise. */
  ghost predicate StoredAt(m: map<(int, int), seq<string>>, i: int, v: seq<string>, bands: int, spinPolarized: bool)
  {
    if spinPolarized then
      (i, 0) in m && (i, 1) in m && m[(i, 0)] == Slice(v, 0, bands) && m[(i, 1)] == Slice(v, bands, |v|)
    else (i, 0) in m && m[(i, 0)] == v
  }

  /** Storing k-point `i` stores its values. */
  lemma StoreSame(m: map<(int, int), seq<string>>, i: int, v: seq<string>, bands: int, spinPolarized: bool)
    ensures StoredAt(Store(m, i, v, bands, spinPolarized), i, v, bands, spinPolarized)
  {
  }

  /** Storing k-point `i` leaves the values of the other k-points alone. */
  lemma StoreOther(m: map<(int, int), seq<string>>, i: int, v: seq<string>, bands: int, spinPolarized: bool, j: int, w: seq<string>)
    requires j != i && StoredAt(m, j, w, bands, spinPolarized)
    ensures StoredAt(Store(m, i, v, bands, spinPolarized), j, w, bands, spinPolarized)
  {
  }

  /** One more k-point: the dictionary of the first `n - 1`, with k-point
      `n - 1` stored. */
  lemma EigStep(body: seq<string>, n: nat, perKpoint: int, bands: int, spinPolarized: bool)
    requires n > 0 && Eig(body, n, perKpoint, bands, spinPolarized).Success?
    ensures Eig(body, n - 1, perKpoint, bands, spinPolarized).Success?
    ensures KpointValues(KpointSlice(body, n - 1, perKpoint)).Success?
    ensures Eig(body, n, perKpoint, bands, spinPolarized).value
         == Store(Eig(body, n - 1, perKpoint, bands, spinPolarized).value, n - 1,
                  KpointValues(KpointSlice(body, n - 1, perKpoint)).value, bands, spinPolarized)
  {
  }

  /** The values each key holds: the k-point's values, split at `bands`
      when spin-polarised. */
  lemma {:induction false} EigValues(body: seq<string>, n: nat, perKpoint: int, bands: int, spinPolarized: bool, i: nat)
    requires Eig(body, n, perKpoint, bands, spinPolarized).Success? && i < n
    ensures KpointValues(KpointSlice(body, i, perKpoint)).Success?
    ensures StoredAt(Eig(body, n, perKpoint, bands, spinPolarized).value, i,
                     KpointValues(KpointSlice(body, i, perKpoint)).value, bands, spinPolarized)
  {
    EigStep(body, n, perKpoint, bands, spinPolarized);
    var prev := Eig(body, n - 1, perKpoint, bands, spinPolarized).value;
    var v := KpointValues(KpointSlice(body, n - 1, perKpoint)).value;
    if i < n - 1 {
      EigValues(body, n - 1, perKpoint, bands, spinPolarized, i);
      var w := KpointValues(KpointSlice(body, i, perKpoint)).value;
      StoreOther(prev, n - 1, v, bands, spinPolarized, i, w);
    } else {
      StoreSame(prev, n - 1, v, bands, spinPolarized);
    }
  }

  /** The keys of the dictionary: `(i, 0)` for every k-point `i`, and
      `(i, 1)` as well when spin-polarised. */
  lemma {:induction false} EigKeys(body: seq<string>, n: nat, perKpoint: int, bands: int, spinPolarized: bool)
    requires Eig(body, n, perKpoint, bands, spinPolarized).Success?
    ensures KeysUpTo(Eig(body, n, perKpoint, bands, spinPolarized).value, n, spinPolarized)
  {
    if n > 0 {
      EigStep(body, n, perKpoint, bands, spinPolarized);
      EigKeys(body, n - 1, perKpoint, bands, spinPolarized);
      StoreKeys(Eig(body, n - 1, perKpoint, bands, spinPolarized).value, n - 1,
                KpointValues(KpointSlice(body, n - 1, perKpoint)).value, bands, spinPolarized);
    }
  }

  /** The keys of the first `n` k-points and no others. */
  ghost predicate KeysUpTo(m: map<(int, int), seq<string>>, n: int, spinPolarized: bool)
  {
    forall i, c :: (i, c) in m <==> 0 <= i < n && (c == 0 || (spinPolarized && c == 1))
  }

  /** Storing k-point `n` adds its keys. */
  lemma StoreKeys(m: map<(int, int), seq<string>>, n: nat, v: seq<string>, bands: int, spinPolarized: bool)
    requires KeysUpTo(m, n, spinPolarized)
    ensures KeysUpTo(Store(m, n, v, bands, spinPolarized), n + 1, spinPolarized)
  {
    var after := Store(m, n, v, bands, spinPolarized);
    forall i, c
      ensures (i, c) in after <==> 0 <= i < n + 1 && (c == 0 || (spinPolarized && c == 1))
    {
      assert (i, c) in m <==> 0 <= i < n && (c == 0 || (spinPolarized && c == 1));
    }
  }

  lemma {:induction false} EigPrefixFailure(body: seq<string>, k: nat, n: nat, perKpoint: int, bands: int, spinPolarized: bool)
    requires k <= n && Eig(body, k, perKpoint, bands, spinPolarized).Failure?
    ensures Eig(body, n, perKpoint, bands, spinPolarized) == Eig(body, k, perKpoint, bands, spinPolarized)
    decreases n - k
  {
    if k < n {
      EigPrefixFailure(body, k + 1, n, perKpoint, bands, spinPolarized);
    }
  }

  /** What `read_eigenvalues` stores: the Fermi level, the weights, the band
      count, whether the run is spin-polarised, and the dictionary. */
  datatype Eigenvalues = Eigenvalues(fermi: string, weights: seq<string>, bands: int,
                                     spinPolarized: bool, eig: map<(int, int), seq<string>>)

  /** Lines 664-697 as a function of the two files' texts. */
  function EigenvaluesOf(kpText: string, eigText: string): Result<Eigenvalues, ReadError>
  {
    var weights :- WeightsOf(kpText);
    var lines := Split(eigText, '\n');
    var h :- ReadHeader(lines);
    var eig :- Eig(Slice(lines, 2, -1), |weights|, LinesPerKpoint(h.bands * h.spins), h.bands, h.spins == 2);
    Success(Eigenvalues(h.fermi, weights, h.bands, h.spins == 2, eig))
  }

  /** Lines 687-689: the list `v` of one k-point, extended line by line. */
  method CollectValues(tmp: seq<string>) returns (v: seq<string>)
    requires |tmp| >= 1
    ensures v == Rest(Words(tmp[0])) + WordsOfLines(tmp[1..])
  {
    v := Rest(Words(tmp[0]));
    for j := 1 to |tmp|
      invariant v == Rest(Words(tmp[0])) + WordsOfLines(tmp[1..j])
    {
      assert tmp[1..j + 1] == tmp[1..j] + [tmp[j]];
      WordsOfLinesSnoc(tmp[1..j], tmp[j]);
      v := v + Words(tmp[j]);
    }
    assert tmp[1..|tmp|] == tmp[1..];
  }

  /** `read_eigenvalues`: the weights, the header, then the dictionary
      filled k-point by k-point. */
  method ReadEigenvalues(kpText: string, eigText: string) returns (r: Result<Eigenvalues, ReadError>)
    ensures r == EigenvaluesOf(kpText, eigText)
  {
    var w := ReadWeights(kpText);
    if w.Failure? {
      return Failure(w.error);
    }
    var weights := w.value;
    var lines := Split(eigText, '\n');
    var h := ReadHeader(lines);
    if h.Failure? {
      return Failure(h.error);
    }
    var bands, spinPolarized := h.value.bands, h.value.spins == 2;
    var body := Slice(lines, 2, -1);
    var perKpoint := LinesPerKpoint(h.value.bands * h.value.spins);
    var eig: map<(int, int), seq<string>> := map[];
    for i := 0 to |weights|
      invariant Eig(body, i, perKpoint, bands, spinPolarized) == Success(eig)
    {
      var tmp := KpointSlice(body, i, perKpoint);
      if |tmp| == 0 {
        EigPrefixFailure(body, i + 1, |weights|, perKpoint, bands, spinPolarized);
        return Failure(IndexError);
      }
      var v := CollectValues(tmp);
      if spinPolarized {
        eig := eig[(i, 0) := Slice(v, 0, bands)];
        eig := eig[(i, 1) := Slice(v, bands, |v|)];
      } else {
        eig := eig[(i, 0) := v];
      }
    }
    r := Success(Eigenvalues(h.value.fermi, weights, bands, spinPolarized, eig));
  }

  // ---------------------------------------------------------------------
  // The layout the reader expects, and the round trips
  // ---------------------------------------------------------------------

  predicate AllWords(ts: seq<string>)
  {
    forall t :: 0 <= t < |ts| ==> IsWord(ts[t])
  }

  /** Values in lines of ten, the last one shorter. */
  function Chunks(a: seq<string>): (cs: seq<seq<string>>)
    ensures |cs| == LinesPerKpoint(|a|)
    ensures forall k :: 0 <= k < |cs| ==> |cs[k]| >= 1
    decreases |a|
  {
    if |a| == 0 then []
    else if |a| <= 10 then [a]
    else [a[..10]] + Chunks(a[10..])
  }

  /** One line per chunk, its values separated by spaces. */
  function ChunkLines(cs: seq<seq<string>>): (ls: seq<string>)
    ensures |ls| == |cs|
  {
    if |cs| == 0 then [] else [Join(cs[0], ' ')] + ChunkLines(cs[1..])
  }

  /** The lines of k-point `i` (0-based): the 1-based index, then the
      values, ten to a line. */
  function KpointLines(i: nat, a: seq<string>): (ls: seq<string>)
    requires |a| >= 1
    ensures |ls| == LinesPerKpoint(|a|)
  {
    var cs := Chunks(a);
    [FormatInt(i + 1) + " " + Join(cs[0], ' ')] + ChunkLines(cs[1..])
  }

  /** The lines of the k-points of `vs`, in order. */
  function BodyLines(vs: seq<seq<string>>, p: nat): (ls: seq<string>)
    requires p >= 1 && forall k :: 0 <= k < |vs| ==> |vs[k]| == p
    ensures |ls| == |vs| * LinesPerKpoint(p)
  {
    if |vs| == 0 then []
    else
      var init := vs[..|vs| - 1];
      assert (|init| + 1) * LinesPerKpoint(p) == |init| * LinesPerKpoint(p) + LinesPerKpoint(p);
      BodyLines(init, p) + KpointLines(|init|, vs[|init|])
  }

  lemma MulMonotone(i: nat, n: nat, m: nat)
    requires i <= n
    ensures i * m <= n * m
  {
  }

  /** An `.EIG` file of `vs`, each k-point holding `bands * spins` values. */
  function EigText(fermi: string, bands: nat, spins: nat, vs: seq<seq<string>>): string
    requires bands * spins >= 1 && forall k :: 0 <= k < |vs| ==> |vs[k]| == bands * spins
  {
    Unlines([fermi, FormatInt(bands) + " " + FormatInt(spins) + " " + FormatInt(|vs|)] + BodyLines(vs, bands * spins))
  }

  lemma {:induction false} FlattenChunks(a: seq<string>)
    requires AllWords(a)
    ensures |a| >= 1 ==> Chunks(a)[0] + WordsOfLines(ChunkLines(Chunks(a)[1..])) == a
    ensures WordsOfLines(ChunkLines(Chunks(a))) == a
    decreases |a|
  {
    var cs := Chunks(a);
    if |a| == 0 {
    } else if |a| <= 10 {
      assert cs == [a];
      WordsOfJoin(a);
      assert ChunkLines(cs)[1..] == ChunkLines(cs[1..]);
      assert cs[1..] == [];
    } else {
      assert cs == [a[..10]] + Chunks(a[10..]);
      assert cs[1..] == Chunks(a[10..]);
      FlattenChunks(a[10..]);
      WordsOfJoin(a[..10]);
      assert ChunkLines(cs)[1..] == ChunkLines(cs[1..]);
      assert a[..10] + a[10..] == a;
    }
  }

  /** The values of one written k-point read back. */
  lemma KpointLinesValues(i: nat, a: seq<string>)
    requires |a| >= 1 && AllWords(a)
    ensures var tmp := KpointLines(i, a); Rest(Words(tmp[0])) + WordsOfLines(tmp[1..]) == a
  {
    var cs := Chunks(a);
    assert cs[0] == a[..|cs[0]|];
    assert AllWords(cs[0]);
    FirstLineWords(FormatInt(i + 1), cs[0]);
    FlattenChunks(a);
    assert KpointLines(i, a)[1..] == ChunkLines(cs[1..]);
  }

  /** The words of a k-point's first line: its index, then its values. */
  lemma FirstLineWords(f: string, c: seq<string>)
    requires IsWord(f) && AllWords(c)
    ensures Rest(Words(f + " " + Join(c, ' '))) == c
  {
    WordsSpaced(f, Join(c, ' '));
    WordsOfJoin(c);
  }

  /** The lines of k-point `i` are the slice `[i * L:i * L + L]`. */
  lemma BodySlice(vs: seq<seq<string>>, p: nat, i: nat)
    requires p >= 1 && forall k :: 0 <= k < |vs| ==> |vs[k]| == p
    requires i < |vs|
    ensures var L := LinesPerKpoint(p);
      0 <= i * L && i * L + L <= |BodyLines(vs, p)|
      && BodyLines(vs, p)[i * L..i * L + L] == KpointLines(i, vs[i])
  {
    var blocks := KpointBlocks(vs, p);
    BodyLinesConcat(vs, p);
    ConcatUniform(blocks, LinesPerKpoint(p), i);
    assert blocks[i] == KpointLines(i, vs[i]);
  }

  /** The lines of each k-point, one block per k-point. */
  function KpointBlocks(vs: seq<seq<string>>, p: nat): (bs: seq<seq<string>>)
    requires p >= 1 && forall k :: 0 <= k < |vs| ==> |vs[k]| == p
    ensures |bs| == |vs|
    ensures forall k :: 0 <= k < |vs| ==> bs[k] == KpointLines(k, vs[k]) && |bs[k]| == LinesPerKpoint(p)
  {
    seq(|vs|, k requires 0 <= k < |vs| => KpointLines(k, vs[k]))
  }

  /** Blocks laid end to end. */
  function Concat<T>(blocks: seq<seq<T>>): seq<T>
  {
    if |blocks| == 0 then [] else Concat(blocks[..|blocks| - 1]) + blocks[|blocks| - 1]
  }

  lemma {:induction false} BodyLinesConcat(vs: seq<seq<string>>, p: nat)
    requires p >= 1 && forall k :: 0 <= k < |vs| ==> |vs[k]| == p
    ensures BodyLines(vs, p) == Concat(KpointBlocks(vs, p))
  {
    if |vs| > 0 {
      var init := vs[..|vs| - 1];
      BodyLinesConcat(init, p);
      assert KpointBlocks(vs, p)[..|vs| - 1] == KpointBlocks(init, p);
    }
  }

  /** In blocks of `L` elements each, block `i` is the slice `[i * L:i * L + L]`. */
  lemma {:induction false} ConcatUniform<T>(blocks: seq<seq<T>>, L: nat, i: nat)
    requires forall k :: 0 <= k < |blocks| ==> |blocks[k]| == L
    requires i < |blocks|
    ensures |Concat(blocks)| == |blocks| * L
    ensures 0 <= i * L && i * L + L <= |Concat(blocks)| && Concat(blocks)[i * L..i * L + L] == blocks[i]
  {
    var n := |blocks|;
    var init := blocks[..n - 1];
    ConcatLength(init, L);
    assert (n - 1 + 1) * L == (n - 1) * L + L;
    if i < n - 1 {
      ConcatUniform(init, L, i);
      MulMonotone(i + 1, n - 1, L);
      assert (i + 1) * L == i * L + L;
      SliceOfFront(Concat(init), blocks[n - 1], i * L, i * L + L);
    } else {
      SliceOfBack(Concat(init), blocks[n - 1]);
    }
  }

  lemma {:induction false} ConcatLength<T>(blocks: seq<seq<T>>, L: nat)
    requires forall k :: 0 <= k < |blocks| ==> |blocks[k]| == L
    ensures |Concat(blocks)| == |blocks| * L
  {
    if |blocks| > 0 {
      ConcatLength(blocks[..|blocks| - 1], L);
      assert (|blocks| - 1 + 1) * L == (|blocks| - 1) * L + L;
    }
  }

  lemma SliceOfFront<T>(front: seq<T>, back: seq<T>, lo: nat, hi: nat)
    requires lo <= hi <= |front|
    ensures (front + back)[lo..hi] == front[lo..hi]
  {
  }

  lemma SliceOfBack<T>(front: seq<T>, back: seq<T>)
    ensures (front + back)[|front|..|front| + |back|] == back
  {
  }

  lemma {:induction false} NoNewlineInWords(ts: seq<string>)
    requires AllWords(ts)
    ensures '\n' !in Join(ts, ' ')
  {
    if |ts| >= 1 {
      forall k | 0 <= k < |ts[0]|
        ensures ts[0][k] != '\n'
      {
        assert !IsSpace(ts[0][k]);
      }
      if |ts| > 1 {
        NoNewlineInWords(ts[1..]);
      }
    }
  }

  lemma FormatIntNoNewline(n: int)
    ensures '\n' !in FormatInt(n)
  {
    forall k | 0 <= k < |FormatInt(n)|
      ensures FormatInt(n)[k] != '\n'
    {
      assert !IsSpace(FormatInt(n)[k]);
    }
  }

  lemma {:induction false} NoNewlineInChunkLines(cs: seq<seq<string>>, a: seq<string>)
    requires AllWords(a) && forall k :: 0 <= k < |cs| ==> AllWords(cs[k])
    ensures forall k :: 0 <= k < |ChunkLines(cs)| ==> '\n' !in ChunkLines(cs)[k]
  {
    if |cs| > 0 {
      NoNewlineInWords(cs[0]);
      NoNewlineInChunkLines(cs[1..], a);
      assert forall k :: 1 <= k < |ChunkLines(cs)| ==> ChunkLines(cs)[k] == ChunkLines(cs[1..])[k - 1];
    }
  }

  lemma {:induction false} ChunksAreWords(a: seq<string>)
    requires AllWords(a)
    ensures forall k :: 0 <= k < |Chunks(a)| ==> AllWords(Chunks(a)[k])
    decreases |a|
  {
    if |a| > 10 {
      ChunksAreWords(a[10..]);
      assert forall k :: 1 <= k < |Chunks(a)| ==> Chunks(a)[k] == Chunks(a[10..])[k - 1];
    }
  }

  lemma NoNewlineInKpointLines(i: nat, a: seq<string>)
    requires |a| >= 1 && AllWords(a)
    ensures forall k :: 0 <= k < |KpointLines(i, a)| ==> '\n' !in KpointLines(i, a)[k]
  {
    var cs := Chunks(a);
    ChunksAreWords(a);
    NoNewlineInWords(cs[0]);
    FormatIntNoNewline(i + 1);
    assert '\n' !in " ";
    NoNewlineInChunkLines(cs[1..], a);
    assert forall k :: 1 <= k < |KpointLines(i, a)| ==> KpointLines(i, a)[k] == ChunkLines(cs[1..])[k - 1];
  }

  lemma {:induction false} NoNewlineInBody(vs: seq<seq<string>>, p: nat)
    requires p >= 1 && forall k :: 0 <= k < |vs| ==> |vs[k]| == p && AllWords(vs[k])
    ensures forall k :: 0 <= k < |BodyLines(vs, p)| ==> '\n' !in BodyLines(vs, p)[k]
  {
    if |vs| > 0 {
      var init := vs[..|vs| - 1];
      NoNewlineInBody(init, p);
      NoNewlineInKpointLines(|vs| - 1, vs[|vs| - 1]);
    }
  }

  lemma WordNoNewline(w: string)
    requires IsWord(w)
    ensures '\n' !in w
  {
    forall k | 0 <= k < |w|
      ensures w[k] != '\n'
    {
      assert !IsSpace(w[k]);
    }
  }

  /** The second line of an `.EIG` file holds no newline. */
  lemma CountsLineNoNewline(bands: int, spins: int, count: int)
    ensures '\n' !in FormatInt(bands) + " " + FormatInt(spins) + " " + FormatInt(count)
  {
    FormatIntNoNewline(bands);
    FormatIntNoNewline(spins);
    FormatIntNoNewline(count);
    assert '\n' !in " ";
  }

  /** The split lines of a written `.EIG` file: the two header lines, the
      body, and the empty run after the last newline. */
  lemma EigTextLines(fermi: string, bands: nat, spins: nat, vs: seq<seq<string>>)
    requires IsWord(fermi)
    requires bands * spins >= 1 && forall k :: 0 <= k < |vs| ==> |vs[k]| == bands * spins && AllWords(vs[k])
    ensures var second := FormatInt(bands) + " " + FormatInt(spins) + " " + FormatInt(|vs|);
      Split(EigText(fermi, bands, spins, vs), '\n') == [fermi, second] + BodyLines(vs, bands * spins) + [""]
  {
    var second := FormatInt(bands) + " " + FormatInt(spins) + " " + FormatInt(|vs|);
    var body := BodyLines(vs, bands * spins);
    NoNewlineInBody(vs, bands * spins);
    WordNoNewline(fermi);
    CountsLineNoNewline(bands, spins, |vs|);
    assert NoNewlines([fermi, second]);
    SplitUnlinesConcat([fermi, second], body);
  }

  lemma HeaderLineWords(bands: int, spins: int, count: int)
    ensures Words(FormatInt(bands) + " " + FormatInt(spins) + " " + FormatInt(count))
         == [FormatInt(bands), FormatInt(spins), FormatInt(count)]
  {
    var a, b, c := FormatInt(bands), FormatInt(spins), FormatInt(count);
    var bc := b + " " + c;
    assert a + " " + b + " " + c == a + " " + bc;
    WordsSpaced(a, bc);
    WordsSpaced(b, c);
    WordsSingle(c);
  }

  /** The header of a written `.EIG` file reads back as the Fermi token and
      the counts, and the body is what `lines[2:-1]` keeps. */
  lemma ReadWrittenHeader(fermi: string, bands: nat, spins: nat, vs: seq<seq<string>>)
    requires IsWord(fermi)
    requires bands * spins >= 1 && forall k :: 0 <= k < |vs| ==> |vs[k]| == bands * spins && AllWords(vs[k])
    ensures var lines := Split(EigText(fermi, bands, spins, vs), '\n');
      && ReadHeader(lines) == Success(Header(fermi, bands, spins))
      && Slice(lines, 2, -1) == BodyLines(vs, bands * spins)
  {
    EigTextLines(fermi, bands, spins, vs);
    HeaderOf(fermi, bands, spins, |vs|, BodyLines(vs, bands * spins));
  }

  /** The same for any body after the two header lines. */
  lemma HeaderOf(fermi: string, bands: int, spins: int, count: int, body: seq<string>)
    requires IsWord(fermi)
    ensures var lines := [fermi, FormatInt(bands) + " " + FormatInt(spins) + " " + FormatInt(count)] + body + [""];
      && ReadHeader(lines) == Success(Header(fermi, bands, spins))
      && Slice(lines, 2, -1) == body
  {
    var second := FormatInt(bands) + " " + FormatInt(spins) + " " + FormatInt(count);
    var lines := [fermi, second] + body + [""];
    assert lines[0] == fermi && lines[1] == second;
    HeaderLineWords(bands, spins, count);
    ParseFormatInt(bands);
    ParseFormatInt(spins);
    WordsSingle(fermi);
    assert lines[2..|lines| - 1] == body;
  }

  /** The dictionary holds the values of k-point `i` under its keys: with
      two spins `(i, 0)` holds the first `bands` values and `(i, 1)` the
      rest, otherwise `(i, 0)` holds them all. */
  ghost predicate HoldsKpoint(m: map<(int, int), seq<string>>, i: int, a: seq<string>, bands: nat, spinPolarized: bool)
  {
    if spinPolarized then
      && (i, 0) in m && (i, 1) in m && bands <= |a|
      && m[(i, 0)] == a[..bands] && m[(i, 1)] == a[bands..]
    else (i, 0) in m && m[(i, 0)] == a
  }

  /** Every k-point of a written body reads back as its values. */
  lemma WrittenKpointValues(bands: nat, spins: nat, vs: seq<seq<string>>)
    requires bands * spins >= 1 && forall k :: 0 <= k < |vs| ==> |vs[k]| == bands * spins && AllWords(vs[k])
    ensures forall i :: 0 <= i < |vs| ==>
      KpointValues(KpointSlice(BodyLines(vs, bands * spins), i, LinesPerKpoint(bands * spins))) == Success(vs[i])
  {
    forall i | 0 <= i < |vs|
      ensures KpointValues(KpointSlice(BodyLines(vs, bands * spins), i, LinesPerKpoint(bands * spins))) == Success(vs[i])
    {
      WrittenKpoint(vs, bands * spins, i);
    }
  }

  /** One k-point of a written body read back. */
  lemma WrittenKpoint(vs: seq<seq<string>>, p: nat, i: nat)
    requires p >= 1 && forall k :: 0 <= k < |vs| ==> |vs[k]| == p && AllWords(vs[k])
    requires i < |vs|
    ensures KpointValues(KpointSlice(BodyLines(vs, p), i, LinesPerKpoint(p))) == Success(vs[i])
  {
    BodySlice(vs, p, i);
    SliceIsBlock(BodyLines(vs, p), i, LinesPerKpoint(p), KpointLines(i, vs[i]));
    KpointLinesValues(i, vs[i]);
  }

  lemma SliceIsBlock(body: seq<string>, i: nat, L: int, block: seq<string>)
    requires 0 <= i * L && 0 <= L && i * L + L <= |body| && body[i * L..i * L + L] == block
    ensures KpointSlice(body, i, L) == block
  {
    assert (i + 1) * L == i * L + L;
  }

  /** The dictionary built from a written body holds every k-point's values. */
  lemma ReadWrittenBody(bands: nat, spins: nat, vs: seq<seq<string>>)
    requires bands * spins >= 1 && forall k :: 0 <= k < |vs| ==> |vs[k]| == bands * spins && AllWords(vs[k])
    ensures var r := Eig(BodyLines(vs, bands * spins), |vs|, LinesPerKpoint(bands * spins), bands, spins == 2);
      && r.Success?
      && forall i :: 0 <= i < |vs| ==> HoldsKpoint(r.value, i, vs[i], bands, spins == 2)
  {
    var body := BodyLines(vs, bands * spins);
    var L := LinesPerKpoint(bands * spins);
    WrittenKpointValues(bands, spins, vs);
    EigSucceeds(body, |vs|, L, bands, spins == 2, vs);
    var m := Eig(body, |vs|, L, bands, spins == 2).value;
    forall i | 0 <= i < |vs|
      ensures HoldsKpoint(m, i, vs[i], bands, spins == 2)
    {
      assert spins == 2 ==> |vs[i]| == bands * 2;
      EigValues(body, |vs|, L, bands, spins == 2, i);
      StoredAtHolds(m, i, vs[i], bands, spins == 2);
    }
  }

  /** With at least `bands` values, storing them is holding them. */
  lemma StoredAtHolds(m: map<(int, int), seq<string>>, i: int, a: seq<string>, bands: nat, spinPolarized: bool)
    requires StoredAt(m, i, a, bands, spinPolarized) && (spinPolarized ==> bands <= |a|)
    ensures HoldsKpoint(m, i, a, bands, spinPolarized)
  {
  }

  /** Round trip of the `.EIG` layout: the header gives back the Fermi
      token and the counts, and the dictionary holds every k-point's
      values, split between the two spin channels when there are two. */
  lemma ReadWrittenEig(fermi: string, bands: nat, spins: nat, vs: seq<seq<string>>)
    requires IsWord(fermi)
    requires bands * spins >= 1 && forall k :: 0 <= k < |vs| ==> |vs[k]| == bands * spins && AllWords(vs[k])
    ensures var lines := Split(EigText(fermi, bands, spins, vs), '\n');
      && ReadHeader(lines) == Success(Header(fermi, bands, spins))
      && var r := Eig(Slice(lines, 2, -1), |vs|, LinesPerKpoint(bands * spins), bands, spins == 2);
      && r.Success?
      && forall i :: 0 <= i < |vs| ==> HoldsKpoint(r.value, i, vs[i], bands, spins == 2)
  {
    ReadWrittenHeader(fermi, bands, spins, vs);
    ReadWrittenBody(bands, spins, vs);
  }

  lemma {:induction false} EigSucceeds(body: seq<string>, n: nat, perKpoint: int, bands: int, spinPolarized: bool, vs: seq<seq<string>>)
    requires n <= |vs|
    requires forall i :: 0 <= i < n ==> KpointValues(KpointSlice(body, i, perKpoint)) == Success(vs[i])
    ensures Eig(body, n, perKpoint, bands, spinPolarized).Success?
  {
    if n > 0 {
      EigSucceeds(body, n - 1, perKpoint, bands, spinPolarized, vs);
    }
  }

  /** One line of a `.KP` file: the 1-based index, three coordinates and
      the weight. */
  function KpLine(i: nat, coordinates: seq<string>, weight: string): string
  {
    Join([FormatInt(i + 1)] + coordinates + [weight], ' ')
  }

  /** The lines of a `.KP` file after the count. */
  function KpLines(coordinates: seq<seq<string>>, weights: seq<string>): (ls: seq<string>)
    requires |coordinates| == |weights|
    ensures |ls| == |weights|
  {
    if |weights| == 0 then []
    else KpLines(coordinates[..|weights| - 1], weights[..|weights| - 1])
         + [KpLine(|weights| - 1, coordinates[|weights| - 1], weights[|weights| - 1])]
  }

  lemma {:induction false} KpLinesAt(coordinates: seq<seq<string>>, weights: seq<string>, i: nat)
    requires |coordinates| == |weights| && i < |weights|
    ensures KpLines(coordinates, weights)[i] == KpLine(i, coordinates[i], weights[i])
  {
    var n := |weights|;
    if i < n - 1 {
      KpLinesAt(coordinates[..n - 1], weights[..n - 1], i);
    }
  }

  /** A written `.KP` line holds no newline and has the weight as its fifth token. */
  lemma KpLineWords(coordinates: seq<seq<string>>, weights: seq<string>, i: nat)
    requires |coordinates| == |weights| && i < |weights|
    requires |coordinates[i]| == 3 && AllWords(coordinates[i]) && IsWord(weights[i])
    ensures var l := KpLines(coordinates, weights)[i];
      '\n' !in l && |Words(l)| == 5 && Words(l)[4] == weights[i]
  {
    KpLinesAt(coordinates, weights, i);
    var ts := [FormatInt(i + 1)] + coordinates[i] + [weights[i]];
    assert AllWords(ts);
    WordsOfJoin(ts);
    NoNewlineInWords(ts);
  }

  /** The split lines of a written `.KP` file: the count, the k-point
      lines and the empty run after the last newline. */
  lemma KpTextLines(coordinates: seq<seq<string>>, weights: seq<string>)
    requires |coordinates| == |weights|
    requires forall i :: 0 <= i < |weights| ==> |coordinates[i]| == 3 && AllWords(coordinates[i]) && IsWord(weights[i])
    ensures Split(Unlines([FormatInt(|weights|)] + KpLines(coordinates, weights)), '\n')
         == [FormatInt(|weights|)] + KpLines(coordinates, weights) + [""]
  {
    var ls := KpLines(coordinates, weights);
    var all := [FormatInt(|weights|)] + ls;
    forall i | 0 <= i < |weights|
      ensures '\n' !in ls[i]
    {
      KpLineWords(coordinates, weights, i);
    }
    FormatIntNoNewline(|weights|);
    assert forall k :: 1 <= k < |all| ==> all[k] == ls[k - 1];
    SplitUnlines(all);
  }

  /** Round trip of the `.KP` layout: the weights come back in order. */
  lemma {:induction false} ReadWrittenWeights(coordinates: seq<seq<string>>, weights: seq<string>)
    requires |coordinates| == |weights|
    requires forall i :: 0 <= i < |weights| ==> |coordinates[i]| == 3 && AllWords(coordinates[i]) && IsWord(weights[i])
    ensures WeightsOf(Unlines([FormatInt(|weights|)] + KpLines(coordinates, weights))) == Success(weights)
  {
    var ls := KpLines(coordinates, weights);
    var lines := Split(Unlines([FormatInt(|weights|)] + ls), '\n');
    KpTextLines(coordinates, weights);
    assert lines[0] == FormatInt(|weights|);
    WordsSingle(FormatInt(|weights|));
    ParseFormatInt(|weights|);
    assert KpointCount(lines) == Success(|weights|);
    assert lines[1..|ls| + 1] == ls;
    forall i | 0 <= i < |weights|
      ensures |Words(ls[i])| == 5 && Words(ls[i])[4] == weights[i]
    {
      KpLineWords(coordinates, weights, i);
    }
    WeightsOfWritten(lines, ls, weights, |weights|);
    assert weights[..|weights|] == weights;
  }

  lemma {:induction false} WeightsOfWritten(lines: seq<string>, ls: seq<string>, weights: seq<string>, n: nat)
    requires n <= |weights| == |ls| && |lines| > |ls| && lines[1..|ls| + 1] == ls
    requires forall i :: 0 <= i < |weights| ==> |Words(ls[i])| == 5 && Words(ls[i])[4] == weights[i]
    ensures Weights(lines, n) == Success(weights[..n])
  {
    if n > 0 {
      WeightsOfWritten(lines, ls, weights, n - 1);
      assert lines[n] == ls[n - 1];
      assert weights[..n] == weights[..n - 1] + [weights[n - 1]];
    }
  }

  /** A written `.KP` file: the count line, then one line per k-point. */
  function KpText(coordinates: seq<seq<string>>, weights: seq<string>): string
    requires |coordinates| == |weights|
  {
    Unlines([FormatInt(|weights|)] + KpLines(coordinates, weights))
  }

  /** Round trip of `read_eigenvalues` as a whole: from a written `.KP` and
      `.EIG` pair with one value list per k-point, the reader gives back the
      Fermi token, the weights, the band count and the spin flag, and a
      dictionary with exactly the keys of the k-points, each holding that
      k-point's values. */
  lemma ReadWrittenEigenvalues(coordinates: seq<seq<string>>, weights: seq<string>,
                               fermi: string, bands: nat, spins: nat, vs: seq<seq<string>>)
    requires |coordinates| == |weights| == |vs|
    requires forall i :: 0 <= i < |weights| ==> |coordinates[i]| == 3 && AllWords(coordinates[i]) && IsWord(weights[i])
    requires IsWord(fermi)
    requires bands * spins >= 1 && forall k :: 0 <= k < |vs| ==> |vs[k]| == bands * spins && AllWords(vs[k])
    ensures var r := EigenvaluesOf(KpText(coordinates, weights), EigText(fermi, bands, spins, vs));
      && r.Success?
      && r.value.fermi == fermi && r.value.weights == weights
      && r.value.bands == bands && r.value.spinPolarized == (spins == 2)
      && KeysUpTo(r.value.eig, |vs|, spins == 2)
      && forall i :: 0 <= i < |vs| ==> HoldsKpoint(r.value.eig, i, vs[i], bands, spins == 2)
  {
    ReadWrittenWeights(coordinates, weights);
    ReadWrittenEig(fermi, bands, spins, vs);
    var lines := Split(EigText(fermi, bands, spins, vs), '\n');
    EigKeys(Slice(lines, 2, -1), |vs|, LinesPerKpoint(bands * spins), bands, spins == 2);
  }

  /** Four bands and two spins: one line per k-point, the first four values
      for spin 0 and the last four for spin 1. */
  lemma TwoSpinsFourBands(fermi: string, vs: seq<seq<string>>)
    requires IsWord(fermi) && forall k :: 0 <= k < |vs| ==> |vs[k]| == 8 && AllWords(vs[k])
    ensures LinesPerKpoint(4 * 2) == 1
    ensures var lines := Split(EigText(fermi, 4, 2, vs), '\n');
      var r := Eig(Slice(lines, 2, -1), |vs|, 1, 4, true);
      r.Success? && forall i :: 0 <= i < |vs| ==>
        (i, 0) in r.value && (i, 1) in r.value && r.value[(i, 0)] == vs[i][..4] && r.value[(i, 1)] == vs[i][4..]
  {
    ReadWrittenEig(fermi, 4, 2, vs);
    var lines := Split(EigText(fermi, 4, 2, vs), '\n');
    assert LinesPerKpoint(4 * 2) == 1;
    var r := Eig(Slice(lines, 2, -1), |vs|, 1, 4, true);
    forall i | 0 <= i < |vs|
      ensures (i, 0) in r.value && (i, 1) in r.value && r.value[(i, 0)] == vs[i][..4] && r.value[(i, 1)] == vs[i][4..]
    {
      assert HoldsKpoint(r.value, i, vs[i], 4, true);
    }
  }
}
