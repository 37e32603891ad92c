/** The one-time code generator: rejection sampling of random bytes into decimal digits. */
module OtpCode {
  import opened Base
  import opened Decimal

  type byte = x: int | 0 <= x < 256

  /** The largest multiple of ten that fits a byte; bytes from here up are rejected. */
  const MAX_VALID := 250

  /** The digits a byte stream yields: accepted bytes in order, reduced modulo ten. */
  function Digits(s: seq<byte>): string {
    if s == [] then []
    else
      var n := |s| - 1;
      Digits(s[..n]) + if s[n] < MAX_VALID then [Digit(s[n] % 10)] else []
  }

  lemma {:induction false} DigitsExtend(s: seq<byte>, t: seq<byte>)
    ensures Digits(s) <= Digits(s + t)
    decreases |t|
  {
    if t == [] {
      assert s + t == s;
    } else {
      DigitsExtend(s, t[..|t| - 1]);
      assert (s + t)[..|s + t| - 1] == s + t[..|t| - 1];
    }
  }

  lemma DigitsStep(s: seq<byte>, i: nat)
    requires i < |s|
    ensures Digits(s[..i + 1]) == Digits(s[..i]) + if s[i] < MAX_VALID then [Digit(s[i] % 10)] else []
  {
    assert s[..i + 1][..i] == s[..i];
  }

  lemma DigitsGrow(s: seq<byte>, i: nat, j: nat)
    requires i <= j <= |s|
    ensures Digits(s[..i]) <= Digits(s[..j])
  {
    DigitsExtend(s[..i], s[i..j]);
    assert s[..i] + s[i..j] == s[..j];
  }

  /** The buffer holds the first digits of the stream up to a position, and all of them unless it is full. */
  ghost predicate Filled(result: seq<char>, filled: nat, s: seq<byte>, upTo: nat)
    requires upTo <= |s|
  {
    && filled <= |result| && filled <= |Digits(s[..upTo])|
    && (forall m | 0 <= m < filled :: result[m] == Digits(s[..upTo])[m])
    && (filled < |result| ==> filled == |Digits(s[..upTo])|)
  }

  lemma FilledStep(result: seq<char>, next: seq<char>, filled: nat, s: seq<byte>, i: nat)
    requires i < |s| && filled < |result| && Filled(result, filled, s, i)
    requires next == if s[i] < MAX_VALID then result[filled := Digit(s[i] % 10)] else result
    ensures Filled(next, if s[i] < MAX_VALID then filled + 1 else filled, s, i + 1)
  {
    DigitsStep(s, i);
    hide Digits;
    assert Digits(s[..i]) <= Digits(s[..i + 1]);
  }

  lemma FilledGrow(result: seq<char>, filled: nat, s: seq<byte>, i: nat, j: nat)
    requires i <= j <= |s| && Filled(result, filled, s, i) && (i < j ==> filled == |result|)
    ensures Filled(result, filled, s, j)
  {
    DigitsGrow(s, i, j);
    hide Digits;
  }

  lemma FilledStart(result: seq<char>, s: seq<byte>)
    ensures Filled(result, 0, s, 0)
  {
  }

  lemma FilledMeans(result: seq<char>, filled: nat, s: seq<byte>, upTo: nat)
    requires upTo <= |s| && Filled(result, filled, s, upTo)
    ensures filled < |result| ==> |Digits(s[..upTo])| < |result|
    ensures filled == |result| ==> result <= Digits(s[..upTo])
  {
    hide Digits;
  }

  /** The code is the first digits of the filtered stream. It fails only when the source runs dry before a whole
      buffer, and then every whole buffer read so far held too few digits. */
  method GenerateOTPCode(length: nat, source: seq<byte>) returns (code: Option<string>, ghost used: nat)
    ensures used <= |source|
    ensures code.Some? ==> |Digits(source)| >= length && code.value == Digits(source)[..length]
    ensures code.None? ==> |Digits(source[..used])| < length && |source| < used + length + 10
  {
    hide Digits, Filled;
    var result := new char[length];
    var filled, pos := 0, 0;
    used := 0;
    FilledStart(result[..], source);
    while filled < length
      invariant pos <= |source| && used == pos && filled <= length && Filled(result[..], filled, source, pos)
      decreases |source| - pos
    {
      if |source| - pos < length + 10 {
        FilledMeans(result[..], filled, source, pos);
        return None, pos;
      }
      var k := 0;
      while k < length + 10 && filled < length
        invariant 0 <= k <= length + 10 && filled <= length && Filled(result[..], filled, source, pos + k)
      {
        ghost var before, at := result[..], filled;
        if source[pos + k] < MAX_VALID {
          result[filled] := Digit(source[pos + k] % 10);
          filled := filled + 1;
        }
        FilledStep(before, result[..], at, source, pos + k);
        k := k + 1;
      }
      FilledGrow(result[..], filled, source, pos + k, pos + length + 10);
      pos := pos + length + 10;
      used := pos;
    }
    FilledGrow(result[..], filled, source, pos, |source|);
    FilledMeans(result[..], filled, source, |source|);
    assert source[..|source|] == source;
    code := Some(result[..]);
  }

  function Pow25(n: nat): nat { if n == 0 then 1 else 25 * Pow25(n - 1) }

  /** Every string of s followed by one given byte. */
  function Append(s: set<seq<int>>, b: int): set<seq<int>> { set bs | bs in s :: bs + [b] }

  /** Every string of s followed by one of the first k bytes that stand for digit d. */
  function Extended(s: set<seq<int>>, d: int, k: nat): set<seq<int>> {
    if k == 0 then {} else Extended(s, d, k - 1) + Append(s, d + 10 * (k - 1))
  }

  /** The accepted byte strings that produce a code, given as a sequence of digits. */
  function Preimages(code: seq<int>): set<seq<int>> {
    if code == [] then {[]} else Extended(Preimages(code[..|code| - 1]), code[|code| - 1], 25)
  }

  lemma AppendMember(s: set<seq<int>>, b: int, x: seq<int>)
    ensures x in Append(s, b) <==> x != [] && x[|x| - 1] == b && x[..|x| - 1] in s
  {
    if x in Append(s, b) {
      var bs :| bs in s && bs + [b] == x;
      assert x[..|x| - 1] == bs;
    }
    if x != [] && x[|x| - 1] == b && x[..|x| - 1] in s {
      assert x == x[..|x| - 1] + [b];
    }
  }

  lemma {:induction false} AppendSize(s: set<seq<int>>, b: int)
    ensures |Append(s, b)| == |s|
  {
    if s == {} {
      assert Append(s, b) == {};
    } else {
      var x :| x in s;
      AppendSize(s - {x}, b);
      AppendMember(s - {x}, b, x + [b]);
      assert (x + [b])[..|x|] == x;
      assert Append(s, b) == Append(s - {x}, b) + {x + [b]};
    }
  }

  lemma {:induction false} ExtendedMember(s: set<seq<int>>, d: int, k: nat, x: seq<int>)
    ensures x in Extended(s, d, k) <==>
              x != [] && x[..|x| - 1] in s && d <= x[|x| - 1] < d + 10 * k && (x[|x| - 1] - d) % 10 == 0
  {
    if k > 0 {
      ExtendedMember(s, d, k - 1, x);
      AppendMember(s, d + 10 * (k - 1), x);
    }
  }

  lemma {:induction false} ExtendedSize(s: set<seq<int>>, d: int, k: nat)
    ensures |Extended(s, d, k)| == k * |s|
    decreases k
  {
    hide Append;
    if k > 0 {
      var last := Append(s, d + 10 * (k - 1));
      ExtendedSize(s, d, k - 1);
      AppendSize(s, d + 10 * (k - 1));
      forall x | x in Extended(s, d, k - 1) ensures x !in last {
        ExtendedMember(s, d, k - 1, x);
        AppendMember(s, d + 10 * (k - 1), x);
      }
      assert Extended(s, d, k - 1) !! last;
      assert (k - 1) * |s| + |s| == k * |s|;
    }
  }

  ghost predicate IsCode(code: seq<int>) { forall i | 0 <= i < |code| :: 0 <= code[i] < 10 }

  ghost predicate Produces(bs: seq<int>, code: seq<int>) {
    |bs| == |code| && forall i | 0 <= i < |bs| :: 0 <= bs[i] < MAX_VALID && bs[i] % 10 == code[i]
  }

  lemma ProducesInit(bs: seq<int>, code: seq<int>)
    requires code != [] && IsCode(code)
    ensures Produces(bs, code) <==>
              bs != [] && Produces(bs[..|bs| - 1], code[..|code| - 1]) &&
              0 <= bs[|bs| - 1] < MAX_VALID && bs[|bs| - 1] % 10 == code[|code| - 1]
  {
    if bs != [] && |bs| == |code| {
      var n := |code| - 1;
      forall i | 0 <= i < n ensures bs[..n][i] == bs[i] && code[..n][i] == code[i] {}
    }
  }

  /** The preimages are exactly the byte strings that produce the code. */
  lemma {:induction false} PreimagesExact(code: seq<int>, bs: seq<int>)
    requires IsCode(code)
    ensures bs in Preimages(code) <==> Produces(bs, code)
    decreases |code|
  {
    if code != [] {
      hide Extended, Produces;
      var n := |code| - 1;
      ExtendedMember(Preimages(code[..n]), code[n], 25, bs);
      ProducesInit(bs, code);
      if bs != [] { PreimagesExact(code[..n], bs[..|bs| - 1]); }
    }
  }

  /** Every code of length n has exactly 25^n accepted byte strings: none is favoured. */
  lemma {:induction false} CodesEquallyLikely(code: seq<int>)
    requires IsCode(code)
    ensures |Preimages(code)| == Pow25(|code|)
    decreases |code|
  {
    if code != [] {
      var n := |code| - 1;
      CodesEquallyLikely(code[..n]);
      ExtendedSize(Preimages(code[..n]), code[n], 25);
    }
  }

  function Rendered(code: seq<int>): (r: string)
    requires IsCode(code)
    ensures |r| == |code|
  {
    seq(|code|, i requires 0 <= i < |code| => Digit(code[i]))
  }

  /** On accepted bytes, the generator's digits are the code exactly for the code's preimages. */
  lemma {:induction false} DigitsAreCodeIff(bs: seq<byte>, code: seq<int>)
    requires IsCode(code) && |bs| == |code| && forall i | 0 <= i < |bs| :: bs[i] < MAX_VALID
    ensures Digits(bs) == Rendered(code) <==> bs in Preimages(code)
  {
    hide Preimages;
    PreimagesExact(code, bs);
    DigitsAt(bs);
    if Digits(bs) == Rendered(code) {
      forall i | 0 <= i < |bs| ensures bs[i] % 10 == code[i] {
        assert Digits(bs)[i] == Digit(bs[i] % 10) && Rendered(code)[i] == Digit(code[i]);
      }
    }
  }

  lemma {:induction false} DigitsAt(bs: seq<byte>)
    requires forall i | 0 <= i < |bs| :: bs[i] < MAX_VALID
    ensures |Digits(bs)| == |bs| && forall i | 0 <= i < |bs| :: Digits(bs)[i] == Digit(bs[i] % 10)
  {
    if bs != [] { DigitsAt(bs[..|bs| - 1]); }
  }
}
