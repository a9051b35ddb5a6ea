/** The scalar encoders of the consent string: integers, booleans, dates and two-letter codes.
    A string over the characters 0 and 1 is a `seq<bool>`; 1 is `true`. */
module TcfBits {
  import opened Wrappers

  type Bits = seq<bool>

  datatype CodecError = EncodingError | DecodingError | ModelError | TypeError

  function Zeros(n: nat): (b: Bits)
    ensures |b| == n
  {
    seq(n, _ => false)
  }

  function Pow2(n: nat): (p: nat)
    ensures p >= 1
  {
    if n == 0 then 1 else 2 * Pow2(n - 1)
  }

  /** `n.toString(2)` */
  function Binary(n: nat): (b: Bits)
    ensures |b| >= 1
  {
    if n < 2 then [n == 1] else Binary(n / 2) + [n % 2 == 1]
  }

  /** `parseInt(b, 2)` on a string of binary digits */
  function Number(b: Bits): nat
  {
    if |b| == 0 then 0
    else 2 * Number(b[..|b| - 1]) + if b[|b| - 1] then 1 else 0
  }

  // ---------- IntEncoder ----------

  function EncodeInt(e: int, width: nat): Result<Bits, CodecError>
  {
    if e < 0 then Err(EncodingError)
    else
      var digits := Binary(e);
      if |digits| > width then Err(EncodingError)
      else Ok(Zeros(width - |digits|) + digits)
  }

  function DecodeInt(b: Bits, width: nat): Result<nat, CodecError>
  {
    if width != |b| then Err(DecodingError) else Ok(Number(b))
  }

  lemma {:induction false} NumberBound(b: Bits)
    ensures Number(b) < Pow2(|b|)
  {
    if |b| != 0 {
      NumberBound(b[..|b| - 1]);
    }
  }

  lemma {:induction false} BinaryLength(n: nat, width: nat)
    requires width >= 1
    ensures |Binary(n)| <= width <==> n < Pow2(width)
  {
    if n >= 2 {
      if width == 1 {
        assert Pow2(1) == 2 * Pow2(0);
      } else {
        BinaryLength(n / 2, width - 1);
      }
    } else {
      assert Pow2(width) == 2 * Pow2(width - 1);
    }
  }

  lemma {:induction false} NumberOfBinary(n: nat)
    ensures Number(Binary(n)) == n
  {
    if n >= 2 {
      NumberOfBinary(n / 2);
      assert Binary(n)[..|Binary(n)| - 1] == Binary(n / 2);
    } else {
      assert Number([n == 1][..0]) == 0;
    }
  }

  lemma {:induction false} NumberOfPadded(k: nat, b: Bits)
    ensures Number(Zeros(k) + b) == Number(b)
  {
    if |b| == 0 {
      assert Zeros(k) + b == Zeros(k);
      if k > 0 {
        assert Zeros(k)[..k - 1] == Zeros(k - 1) + [];
        NumberOfPadded(k - 1, []);
      }
    } else {
      assert (Zeros(k) + b)[..k + |b| - 1] == Zeros(k) + b[..|b| - 1];
      NumberOfPadded(k, b[..|b| - 1]);
    }
  }

  /** Encoding fails exactly outside [0, 2^width) and is undone by decoding. */
  lemma IntRoundTrip(e: int, width: nat)
    requires width >= 1
    ensures EncodeInt(e, width).Ok? <==> 0 <= e < Pow2(width)
    ensures EncodeInt(e, width).Ok? ==>
              var b := EncodeInt(e, width).value;
              |b| == width && DecodeInt(b, width) == Ok(e)
  {
    if e >= 0 {
      BinaryLength(e, width);
      if e < Pow2(width) {
        NumberOfBinary(e);
        NumberOfPadded(width - |Binary(e)|, Binary(e));
      }
    }
  }

  lemma {:induction false} NumberInjective(a: Bits, b: Bits)
    requires |a| == |b| && Number(a) == Number(b)
    ensures a == b
  {
    if |a| != 0 {
      var n := |a| - 1;
      NumberInjective(a[..n], b[..n]);
      assert a == a[..n] + [a[n]] && b == b[..n] + [b[n]];
    }
  }

  /** Decoding is undone by encoding: the code of an integer at a given width is unique. */
  lemma IntDecodeEncode(b: Bits)
    requires |b| >= 1
    ensures EncodeInt(Number(b), |b|) == Ok(b)
  {
    NumberBound(b);
    IntRoundTrip(Number(b), |b|);
    NumberInjective(EncodeInt(Number(b), |b|).value, b);
  }

  // ---------- BooleanEncoder ----------

  function EncodeBool(v: bool): (b: Bits)
    ensures |b| == 1
  {
    [v]
  }

  function DecodeBool(b: Bits): bool
  {
    b == [true]
  }

  // ---------- DateEncoder (milliseconds since the epoch) ----------

  /** `Math.round(ms / 100)`: halves round up, also for negative values */
  function Deciseconds(ms: int): (d: int)
    ensures 100 * d - 50 <= ms < 100 * d + 50
  {
    (ms + 50) / 100
  }

  function EncodeDate(ms: int, width: nat): Result<Bits, CodecError>
  {
    EncodeInt(Deciseconds(ms), width)
  }

  function DecodeDate(b: Bits, width: nat): Result<int, CodecError>
  {
    var d :- DecodeInt(b, width);
    Ok(d * 100)
  }

  /** A date comes back rounded to tenths of a second, hence unchanged exactly when it is a
      multiple of 100 milliseconds. */
  lemma DateRoundTrip(ms: int, width: nat)
    requires width >= 1
    ensures EncodeDate(ms, width).Ok? <==> -50 <= ms < 100 * Pow2(width) - 50
    ensures EncodeDate(ms, width).Ok? ==>
              var b := EncodeDate(ms, width).value;
              && |b| == width
              && DecodeDate(b, width) == Ok(100 * Deciseconds(ms))
              && (DecodeDate(b, width) == Ok(ms) <==> ms % 100 == 0)
  {
    IntRoundTrip(Deciseconds(ms), width);
  }

  // ---------- LangEncoder ----------

  function UpperChar(c: char): char
  {
    if 'a' <= c <= 'z' then c - 32 as char else c
  }

  /** The upper case of one character in `toUpperCase`, as far as it holds ASCII letters: a few letters
      outside ASCII become one or more of them. Other characters stand for themselves. */
  function UpperOf(c: char): string
  {
    match c
    case '\U{131}' => "I"
    case '\U{17F}' => "S"
    case '\U{DF}' => "SS"
    case '\U{1F0}' => "J\U{30C}"
    case '\U{1E96}' => "H\U{331}"
    case '\U{1E97}' => "T\U{308}"
    case '\U{1E98}' => "W\U{30A}"
    case '\U{1E99}' => "Y\U{30A}"
    case '\U{1E9A}' => "A\U{2BE}"
    case '\U{FB00}' => "FF"
    case '\U{FB01}' => "FI"
    case '\U{FB02}' => "FL"
    case '\U{FB03}' => "FFI"
    case '\U{FB04}' => "FFL"
    case '\U{FB05}' => "ST"
    case '\U{FB06}' => "ST"
    case _ => [UpperChar(c)]
  }

  /** `s.toUpperCase()` */
  function Upper(s: string): string
  {
    if |s| == 0 then "" else UpperOf(s[0]) + Upper(s[1..])
  }

  predicate IsUpperLetter(c: char)
  {
    'A' <= c <= 'Z'
  }

  /** Only the first two characters of the upper-cased code are read. A shorter string yields NaN digits in the
      original, which its base64url step then rejects: an encoding error as well. */
  function EncodeLang(s: string, width: nat): Result<Bits, CodecError>
  {
    var upper := Upper(s);
    if |upper| < 2 then Err(EncodingError)
    else
      var first, second := upper[0], upper[1];
      if !IsUpperLetter(first) || !IsUpperLetter(second) then Err(EncodingError)
      else if width % 2 == 1 then Err(EncodingError)
      else
        var a :- EncodeInt(first as int - 65, width / 2);
        var b :- EncodeInt(second as int - 65, width / 2);
        Ok(a + b)
  }

  function DecodeLang(b: Bits, width: nat): Result<string, CodecError>
    requires width <= 16
  {
    if width == |b| && width % 2 == 0 then
      var half := width / 2;
      NumberBound(b[..half]);
      NumberBound(b[half..]);
      Pow2AtMost256(half);
      Ok([(Number(b[..half]) + 65) as char, (Number(b[half..]) + 65) as char])
    else Err(DecodingError)
  }

  lemma Pow2AtMost256(n: nat)
    requires n <= 8
    ensures Pow2(n) <= 256
    decreases 8 - n
  {
    if n < 8 {
      Pow2AtMost256(n + 1);
    }
  }

  lemma LangRoundTrip(s: string)
    ensures EncodeLang(s, 12).Ok? <==> |Upper(s)| >= 2 && IsUpperLetter(Upper(s)[0]) && IsUpperLetter(Upper(s)[1])
    ensures EncodeLang(s, 12).Ok? ==>
              var b := EncodeLang(s, 12).value;
              |b| == 12 && DecodeLang(b, 12) == Ok(Upper(s)[..2])
  {
    hide Upper;
    var upper := Upper(s);
    if |upper| >= 2 && IsUpperLetter(upper[0]) && IsUpperLetter(upper[1]) {
      assert Pow2(6) == 64;
      var x, y := upper[0] as int - 65, upper[1] as int - 65;
      IntRoundTrip(x, 6);
      IntRoundTrip(y, 6);
      var a, b := EncodeInt(x, 6).value, EncodeInt(y, 6).value;
      assert (a + b)[..6] == a && (a + b)[6..] == b;
      assert upper[..2] == [upper[0], upper[1]];
    }
  }

  lemma UpperOfTwo(s: string)
    requires |s| == 2 && IsUpperLetter(s[0]) && IsUpperLetter(s[1])
    ensures Upper(s) == s
  {
    assert s[1..][1..] == "" && Upper("") == "";
    assert s == [s[0]] + [s[1]];
  }
}
