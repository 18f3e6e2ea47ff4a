/**
 * The Ascii85 codec of the skolplattformen crate (ASCII85Decode of section
 * 7.4.3 of ISO 32000-1, without the `~>` end marker and without ever emitting
 * `z`). Encoding turns every 4 bytes into 5 digits in `!`..`u`; a final chunk
 * of k < 4 bytes is zero-padded and gives k + 1 digits. Decoding accumulates
 * digits into a `u32` and pads a final partial group with `u`.
 *
 * Strings are their (ASCII) bytes. The `u32` accumulator is modelled with the
 * wrap-around of a release build (`% 2^32`); the lemmas show that it never
 * wraps on anything `encode` produced, and that it does on other input.
 */
module Ascii85 {
  import opened Wrappers

  type Byte = x: int | 0 <= x < 256

  /** Powers of 85, most significant first. */
  const TABLE: seq<nat> := [52200625, 614125, 7225, 85, 1]

  const U32: nat := 0x1_0000_0000

  const EXCLAMATION: Byte := 33
  const LOWER_U: Byte := 117
  const LOWER_Z: Byte := 122

  /** The group `!!!!!`, which `z` abbreviates. */
  const ZERO_DIGITS: seq<Byte> := [EXCLAMATION, EXCLAMATION, EXCLAMATION, EXCLAMATION, EXCLAMATION]

  datatype Ascii85Error = MisalignedZ | OutOfRange

  /** `u32::from_be_bytes`. */
  function FromBeBytes(b: seq<Byte>): (n: nat)
    requires |b| == 4
    ensures n < U32
  {
    b[0] as int * 16777216 + b[1] as int * 65536 + b[2] as int * 256 + b[3] as int
  }

  /** `u32::to_be_bytes`. */
  function ToBeBytes(n: nat): (b: seq<Byte>)
    requires n < U32
    ensures |b| == 4
  {
    [n / 16777216, (n / 65536) % 256, (n / 256) % 256, n % 256]
  }

  /** The i-th base-85 digit of `number`, as the character code `encode` emits. */
  function Digit(number: nat, i: nat): Byte
    requires i < 5
  {
    (number / TABLE[i]) % 85 + 33
  }

  /** The chunk zero-padded to 4 bytes. */
  function PadZero(chunk: seq<Byte>): (p: seq<Byte>)
    requires |chunk| <= 4
    ensures |p| == 4
  {
    chunk + seq(4 - |chunk|, _ => 0)
  }

  /** The `count = 5 - (4 - len)` digits one chunk of 1..4 bytes encodes to. */
  function EncodeChunk(chunk: seq<Byte>): (r: seq<Byte>)
    requires 1 <= |chunk| <= 4
    ensures |r| == |chunk| + 1
  {
    var number := FromBeBytes(PadZero(chunk));
    seq(|chunk| + 1, i requires 0 <= i < |chunk| + 1 => Digit(number, i))
  }

  /** What `encode` returns: the chunks of 4 bytes (the last possibly shorter), encoded one after the other. */
  function Encoded(input: seq<Byte>): seq<Byte>
  {
    if |input| == 0 then []
    else if |input| <= 4 then EncodeChunk(input)
    else EncodeChunk(input[..4]) + Encoded(input[4..])
  }

  predicate InRange(d: Byte)
  {
    EXCLAMATION <= d <= LOWER_U
  }

  predicate AllInRange(s: seq<Byte>)
  {
    forall k :: 0 <= k < |s| ==> InRange(s[k])
  }

  /** The accumulator of a group without wrap-around: digit k contributes `(d - 33) * TABLE[k]`. */
  function Acc(g: seq<Byte>): int
    requires |g| <= 5
  {
    if |g| == 0 then 0
    else Acc(g[..|g| - 1]) + (g[|g| - 1] as int - 33) * TABLE[|g| - 1]
  }

  /** A partial final group padded with `u` to 5 digits. */
  function PadU(tail: seq<Byte>): (p: seq<Byte>)
    requires |tail| < 5
    ensures |p| == 5
  {
    tail + seq(5 - |tail|, _ => LOWER_U)
  }

  /**
   * What `decode` returns on input whose every character is in range: 4 bytes per
   * group of 5 digits, and m - 1 bytes for a final group of m < 5 digits.
   */
  function DecodeValid(s: seq<Byte>): seq<Byte>
  {
    if |s| == 0 then []
    else if |s| >= 5 then ToBeBytes(Acc(s[..5]) % U32) + DecodeValid(s[5..])
    else ToBeBytes(Acc(PadU(s)) % U32)[..|s| - 1]
  }

  /** The index of the first character outside `!`..`u`, or `|s|`. */
  function FirstBad(s: seq<Byte>): (p: nat)
    ensures p <= |s|
    ensures AllInRange(s[..p])
    ensures p < |s| ==> !InRange(s[p])
  {
    if |s| == 0 then 0
    else if !InRange(s[0]) then 0
    else
      var p := 1 + FirstBad(s[1..]);
      assert s[..p] == [s[0]] + s[1..][..p - 1];
      p
  }

  /**
   * What `decode` returns: the first character out of range decides the error
   * (a `z` at a group boundary included, since it falls through to the range
   * check); `MisalignedZ` only for a `z` inside a group.
   */
  function Decoded(s: seq<Byte>): Result<seq<Byte>, Ascii85Error>
  {
    var p := FirstBad(s);
    if p == |s| then Ok(DecodeValid(s))
    else if s[p] == LOWER_Z && p % 5 != 0 then Err(MisalignedZ)
    else Err(OutOfRange)
  }

  /** Every intermediate value of the accumulator of a group stays below 2^32. */
  ghost predicate GroupFits(g: seq<Byte>)
    requires |g| <= 5
  {
    forall j :: 0 <= j <= |g| ==> Acc(g[..j]) < U32
  }

  /** The `u32` accumulator never wraps while decoding `s` (whose characters are all in range). */
  ghost predicate NoOverflow(s: seq<Byte>)
  {
    if |s| == 0 then true
    else if |s| >= 5 then GroupFits(s[..5]) && NoOverflow(s[5..])
    else GroupFits(PadU(s))
  }

  // ---------------------------------------------------------------------------
  // The imperative codec, as the crate runs it.
  // ---------------------------------------------------------------------------

  /** `encode`: walk the input in chunks of 4, zero-pad the last one, push `count` digits per chunk. */
  method Encode(input: seq<Byte>) returns (result: seq<Byte>)
    ensures result == Encoded(input)
  {
    result := [];
    var pos := 0;
    while pos < |input|
      invariant 0 <= pos <= |input|
      invariant result + Encoded(input[pos..]) == Encoded(input)
    {
      var end := if pos + 4 <= |input| then pos + 4 else |input|;
      var chunk := input[pos..end];
      var padded, count;
      if |chunk| == 4 {
        padded, count := chunk, 5;
      } else {
        padded, count := chunk + seq(4 - |chunk|, _ => 0), 5 - (4 - |chunk|);
      }
      assert padded == PadZero(chunk);
      var number := FromBeBytes(padded);
      var before := result;
      var i := 0;
      while i < count
        invariant 0 <= i <= count == |chunk| + 1
        invariant result == before + EncodeChunk(chunk)[..i]
      {
        var digit := Digit(number, i);
        EncodeDigitStep(chunk, padded, i, before, result);
        result := result + [digit];
        i := i + 1;
      }
      EncodedStep(input, pos, before, result);
      pos := end;
    }
  }

  /** One turn of `encode`'s inner loop: the next digit of the chunk. */
  lemma {:induction false} EncodeDigitStep(chunk: seq<Byte>, padded: seq<Byte>, i: nat, before: seq<Byte>, result: seq<Byte>)
    requires 1 <= |chunk| <= 4 && padded == PadZero(chunk) && i < |chunk| + 1
    requires result == before + EncodeChunk(chunk)[..i]
    ensures result + [Digit(FromBeBytes(padded), i)] == before + EncodeChunk(chunk)[..i + 1]
  {
    assert EncodeChunk(chunk)[..i + 1] == EncodeChunk(chunk)[..i] + [Digit(FromBeBytes(padded), i)];
  }

  /** One turn of `encode`'s outer loop: the next chunk's digits, then the rest. */
  lemma {:induction false} EncodedStep(input: seq<Byte>, pos: nat, before: seq<Byte>, result: seq<Byte>)
    requires pos < |input| && before + Encoded(input[pos..]) == Encoded(input)
    requires var end := if pos + 4 <= |input| then pos + 4 else |input|;
      result == before + EncodeChunk(input[pos..end])[..|input[pos..end]| + 1]
    ensures var end := if pos + 4 <= |input| then pos + 4 else |input|;
      result + Encoded(input[end..]) == Encoded(input)
  {
    var end := if pos + 4 <= |input| then pos + 4 else |input|;
    var rest := input[pos..];
    var e := EncodeChunk(input[pos..end]);
    assert e[..|e|] == e;
    EncodedHead(rest);
    assert rest[..end - pos] == input[pos..end] && rest[end - pos..] == input[end..];
  }

  /** `Encoded` of a non-empty input: its first chunk of up to 4 bytes, then the rest. */
  lemma {:induction false} EncodedHead(s: seq<Byte>)
    requires |s| > 0
    ensures var k := if |s| >= 4 then 4 else |s|;
      Encoded(s) == EncodeChunk(s[..k]) + Encoded(s[k..])
  {
    if |s| <= 4 {
      assert s[..|s|] == s && s[|s|..] == [];
    }
  }

  /**
   * `decode_digit`: add one digit to the accumulator (wrapping, as a release
   * build does); after the fifth digit emit the 4 big-endian bytes and start a
   * new group. The caller has checked the range, so `digit - 33` cannot
   * underflow. The ghost `done` holds the complete groups decoded into `result`
   * so far and `group` the digits accumulated into `chunk`.
   */
  method DecodeDigit(digit: Byte, counter: nat, chunk: nat, result: seq<Byte>,
                     ghost done: seq<Byte>, ghost group: seq<Byte>)
    returns (counter': nat, chunk': nat, result': seq<Byte>)
    requires EXCLAMATION <= digit && counter == |group| < 5 && |done| % 5 == 0
    requires chunk == Acc(group) % U32 && result == DecodeValid(done)
    ensures counter < 4 ==>
      (counter' == counter + 1 && result' == result && chunk' == Acc(group + [digit]) % U32)
    ensures counter == 4 ==>
      (counter' == 0 && chunk' == 0 && |done + (group + [digit])| % 5 == 0
       && result' == DecodeValid(done + (group + [digit])))
  {
    var byte: nat := digit as int - 33;
    var sum := (chunk + (byte * TABLE[counter]) % U32) % U32;
    ModSum(chunk, byte * TABLE[counter]);
    AccumulateWrap(group, chunk, digit);
    if counter == 4 {
      GroupComplete(done, group, digit);
      result' := result + ToBeBytes(sum);
      chunk', counter' := 0, 0;
    } else {
      result', chunk', counter' := result, sum, counter + 1;
    }
  }

  /**
   * `decode`: range-check and accumulate every digit, then pad the last group
   * with `u` and drain the padding. The ghost `done` holds the complete groups
   * read so far and `group` the digits of the current one.
   */
  method Decode(input: seq<Byte>) returns (r: Result<seq<Byte>, Ascii85Error>)
    ensures r == Decoded(input)
  {
    var result: seq<Byte> := [];
    var counter: nat := 0;
    var chunk: nat := 0;
    var pos := 0;
    ghost var done: seq<Byte> := [];
    ghost var group: seq<Byte> := [];
    while pos < |input|
      invariant Scanned(input, pos, done, group)
      invariant counter == |group| && chunk == Acc(group) % U32 && result == DecodeValid(done)
    {
      var digit := input[pos];
      if digit == LOWER_Z {
        if counter == 0 {
          result := result + [0, 0, 0, 0];
        } else {
          ScanError(input, pos, done, group);
          return Err(MisalignedZ);
        }
      }
      if !(EXCLAMATION <= digit <= LOWER_U) {
        ScanError(input, pos, done, group);
        return Err(OutOfRange);
      }
      counter, chunk, result, done, group := Accept(input, pos, counter, chunk, result, done, group);
      pos := pos + 1;
    }
    ScanComplete(input, pos, done, group);
    result := Drain(counter, chunk, result, done, group);
    r := Ok(result);
  }

  /** What the decoding loop knows after reading `pos` characters: all in range, split into whole groups and a partial one. */
  ghost predicate Scanned(input: seq<Byte>, pos: nat, done: seq<Byte>, group: seq<Byte>)
  {
    pos <= |input| && input[..pos] == done + group && AllInRange(input[..pos])
    && |done| % 5 == 0 && |group| < 5
  }

  /** One digit in range passes through `decode_digit`; the ghost groups advance with it. */
  method Accept(input: seq<Byte>, pos: nat, counter: nat, chunk: nat, result: seq<Byte>,
                ghost done: seq<Byte>, ghost group: seq<Byte>)
    returns (counter': nat, chunk': nat, result': seq<Byte>, ghost done': seq<Byte>, ghost group': seq<Byte>)
    requires Scanned(input, pos, done, group) && pos < |input| && InRange(input[pos])
    requires counter == |group| && chunk == Acc(group) % U32 && result == DecodeValid(done)
    ensures Scanned(input, pos + 1, done', group')
    ensures counter' == |group'| && chunk' == Acc(group') % U32 && result' == DecodeValid(done')
  {
    RangeStep(input, pos);
    PrefixStep(input, pos, done, group);
    var read := group + [input[pos]];
    counter', chunk', result' := DecodeDigit(input[pos], counter, chunk, result, done, group);
    if |read| == 5 {
      done', group' := done + read, [];
    } else {
      done', group' := done, read;
    }
  }

  /** The first character out of range ends `decode` with the error `Decoded` names. */
  lemma ScanError(input: seq<Byte>, pos: nat, done: seq<Byte>, group: seq<Byte>)
    requires Scanned(input, pos, done, group) && pos < |input| && !InRange(input[pos])
    ensures Decoded(input) == if input[pos] == LOWER_Z && |group| != 0 then Err(MisalignedZ) else Err(OutOfRange)
  {
    GroupOffset(input, pos, done, group);
    DecodedErrors(input, pos);
  }

  /**
   * The end of `decode`: complete a final partial group of `counter` digits with
   * `u` digits, then drop as many bytes as padding digits were added.
   */
  method Drain(counter: nat, chunk: nat, result: seq<Byte>, ghost done: seq<Byte>, ghost tail: seq<Byte>)
    returns (drained: seq<Byte>)
    requires |done| % 5 == 0 && counter == |tail| < 5
    requires chunk == Acc(tail) % U32 && result == DecodeValid(done)
    ensures drained == DecodeValid(done + tail)
  {
    var counter, chunk, result := counter, chunk, result;
    var toRemove := 0;
    ghost var group := tail;
    while counter != 0
      invariant 0 <= toRemove && |tail| + toRemove <= 5 && counter < 5
      invariant counter != 0 ==>
        counter == |group| == |tail| + toRemove && group == PadU(tail)[..|group|]
        && chunk == Acc(group) % U32 && result == DecodeValid(done)
      invariant counter == 0 && |tail| == 0 ==> toRemove == 0 && result == DecodeValid(done)
      invariant counter == 0 && |tail| != 0 ==> |tail| + toRemove == 5 && result == DecodeValid(done + PadU(tail))
      decreases if counter == 0 then 0 else 5 - counter
    {
      assert group + [LOWER_U] == PadU(tail)[..|group| + 1];
      counter, chunk, result := DecodeDigit(LOWER_U, counter, chunk, result, done, group);
      toRemove := toRemove + 1;
      group := group + [LOWER_U];
      if counter == 0 {
        assert group == PadU(tail);
      }
    }
    DrainPadding(done, tail, toRemove, result);
    drained := result[..|result| - toRemove];
  }

  /** Once every character has passed the range check, `decode` succeeds with the decoding of the groups read. */
  lemma {:induction false} ScanComplete(input: seq<Byte>, pos: nat, done: seq<Byte>, group: seq<Byte>)
    requires pos == |input| && input[..pos] == done + group
    requires AllInRange(input[..pos])
    ensures Decoded(input) == Ok(DecodeValid(done + group))
  {
    assert input[..pos] == input;
    FirstBadNone(input);
  }

  /** The position of the next digit within its group is the number of digits of the group read so far. */
  lemma {:induction false} GroupOffset(input: seq<Byte>, pos: nat, done: seq<Byte>, group: seq<Byte>)
    requires pos <= |input| && input[..pos] == done + group && |done| % 5 == 0 && |group| < 5
    ensures pos % 5 == |group|
  {
    assert pos == |done| + |group|;
  }

  lemma {:induction false} PrefixStep(input: seq<Byte>, pos: nat, done: seq<Byte>, group: seq<Byte>)
    requires pos < |input| && input[..pos] == done + group
    ensures input[..pos + 1] == done + (group + [input[pos]]) == (done + (group + [input[pos]])) + []
  {
    assert input[..pos + 1] == input[..pos] + [input[pos]];
  }

  /** One digit read by `decode_digit`: the wrapped accumulator follows `Acc`. */
  lemma {:induction false} AccumulateWrap(group: seq<Byte>, chunk: int, d: Byte)
    requires |group| < 5 && chunk == Acc(group) % U32
    ensures (chunk + (d as int - 33) * TABLE[|group|]) % U32 == Acc(group + [d]) % U32
  {
    AccSnoc(group, d);
    ModAdd(Acc(group), (d as int - 33) * TABLE[|group|]);
  }

  /** The fifth digit of a group: the group's 4 bytes follow those of the complete groups before it. */
  lemma {:induction false} GroupComplete(done: seq<Byte>, group: seq<Byte>, d: Byte)
    requires |done| % 5 == 0 && |group| == 4
    ensures |done + (group + [d])| % 5 == 0
    ensures DecodeValid(done + (group + [d])) == DecodeValid(done) + ToBeBytes(Acc(group + [d]) % U32)
  {
    DecodeValidConcat(done, group + [d]);
    DecodeValidGroup(group + [d]);
  }

  /** Dropping the `to_remove` padding bytes leaves what the final partial group decodes to. */
  lemma {:induction false} DrainPadding(done: seq<Byte>, tail: seq<Byte>, toRemove: nat, result: seq<Byte>)
    requires |done| % 5 == 0 && |tail| < 5
    requires |tail| == 0 ==> toRemove == 0 && result == DecodeValid(done)
    requires |tail| != 0 ==> |tail| + toRemove == 5 && result == DecodeValid(done + PadU(tail))
    ensures toRemove <= |result| && result[..|result| - toRemove] == DecodeValid(done + tail)
  {
    DecodeValidConcat(done, tail);
    if |tail| == 0 {
      assert done + tail == done;
    } else {
      DecodeValidConcat(done, PadU(tail));
      DecodeValidGroup(PadU(tail));
      assert result[..|result| - toRemove] == DecodeValid(done) + DecodeValid(tail);
    }
  }

  // ---------------------------------------------------------------------------
  // Arithmetic facts.
  // ---------------------------------------------------------------------------

  /** Adding a wrapped summand to a wrapped accumulator wraps the sum. */
  lemma ModSum(a: nat, b: nat)
    requires a < U32
    ensures (a + b % U32) % U32 == (a + b) % U32
  {
  }

  /** Wrapping the accumulator before adding does not change the wrapped sum. */
  lemma ModAdd(a: int, b: int)
    ensures (a % U32 + b) % U32 == (a + b) % U32
  {
  }

  lemma {:induction false} AccSnoc(g: seq<Byte>, d: Byte)
    requires |g| < 5
    ensures Acc(g + [d]) == Acc(g) + (d as int - 33) * TABLE[|g|]
  {
    assert (g + [d])[..|g|] == g;
  }

  /** The accumulator of a whole group, written out. */
  lemma {:induction false} AccFive(g: seq<Byte>)
    requires |g| == 5
    ensures Acc(g) == (g[0] as int - 33) * 52200625 + (g[1] as int - 33) * 614125 + (g[2] as int - 33) * 7225
      + (g[3] as int - 33) * 85 + (g[4] as int - 33)
  {
    assert g[..0] + [g[0]] == g[..1] && g[..1] + [g[1]] == g[..2] && g[..2] + [g[2]] == g[..3];
    assert g[..3] + [g[3]] == g[..4] && g[..4] + [g[4]] == g[..5] == g;
    AccSnoc(g[..0], g[0]);
    AccSnoc(g[..1], g[1]);
    AccSnoc(g[..2], g[2]);
    AccSnoc(g[..3], g[3]);
    AccSnoc(g[..4], g[4]);
    assert g[..5] == g;
  }

  /** Prefix sums of the accumulator never exceed the whole group's. */
  lemma {:induction false} AccPrefix(g: seq<Byte>, j: nat)
    requires |g| <= 5 && AllInRange(g) && j <= |g|
    ensures Acc(g[..j]) <= Acc(g)
    decreases |g| - j
  {
    if j < |g| {
      var h := g[..|g| - 1];
      assert h[..j] == g[..j];
      AccPrefix(h, j);
    } else {
      assert g[..j] == g;
    }
  }

  /** A group fits in a `u32` exactly when its full accumulator does. */
  lemma {:induction false} GroupFitsIff(g: seq<Byte>)
    requires |g| <= 5 && AllInRange(g)
    ensures GroupFits(g) <==> Acc(g) < U32
  {
    if Acc(g) < U32 {
      forall j | 0 <= j <= |g| ensures Acc(g[..j]) < U32 {
        AccPrefix(g, j);
      }
    } else {
      assert g[..|g|] == g;
    }
  }

  /** Base-85 digits of a `u32` put back together give the number. */
  lemma Base85(n: nat)
    requires n < U32
    ensures (n / 52200625) % 85 == n / 52200625
    ensures (n / 52200625) * 52200625 + ((n / 614125) % 85) * 614125 == (n / 614125) * 614125
    ensures (n / 614125) * 614125 + ((n / 7225) % 85) * 7225 == (n / 7225) * 7225
    ensures (n / 7225) * 7225 + ((n / 85) % 85) * 85 == (n / 85) * 85
    ensures (n / 85) * 85 + n % 85 == n
  {
    assert n / 614125 / 85 == n / 52200625;
    assert n / 7225 / 85 == n / 614125;
    assert n / 85 / 85 == n / 7225;
  }

  /** Division by 256 of a number written in base 256. */
  lemma DivMod256(q: int, r: int)
    requires 0 <= r < 256
    ensures (q * 256 + r) / 256 == q && (q * 256 + r) % 256 == r
  {
  }

  lemma DivMod65536(q: int, r: int)
    requires 0 <= r < 65536
    ensures (q * 65536 + r) / 65536 == q
  {
  }

  lemma DivMod16777216(q: int, r: int)
    requires 0 <= r < 16777216
    ensures (q * 16777216 + r) / 16777216 == q
  {
  }

  /** The five base-85 digits of a `u32`, weighted by their places, add up to the number. */
  lemma Base85Sum(n: nat)
    requires n < U32
    ensures ((n / 52200625) % 85) * 52200625 + ((n / 614125) % 85) * 614125 + ((n / 7225) % 85) * 7225
      + ((n / 85) % 85) * 85 + n % 85 == n
  {
    Base85(n);
  }

  /** A group holding the five base-85 digits of n accumulates back to n. */
  lemma {:induction false} DigitsAcc(g: seq<Byte>, n: nat)
    requires |g| == 5 && n < U32
    requires g[0] as int - 33 == (n / 52200625) % 85 && g[1] as int - 33 == (n / 614125) % 85
    requires g[2] as int - 33 == (n / 7225) % 85 && g[3] as int - 33 == (n / 85) % 85 && g[4] as int - 33 == n % 85
    ensures Acc(g) == n
  {
    AccFive(g);
    Base85Sum(n);
  }

  /** `to_be_bytes` undoes `from_be_bytes`. */
  lemma {:induction false} BeBytesRoundTrip(b: seq<Byte>)
    requires |b| == 4
    ensures ToBeBytes(FromBeBytes(b)) == b
  {
    var b0, b1, b2, b3 := b[0] as int, b[1] as int, b[2] as int, b[3] as int;
    DivMod16777216(b0, b1 * 65536 + b2 * 256 + b3);
    DivMod65536(b0 * 256 + b1, b2 * 256 + b3);
    DivMod256(b0, b1);
    DivMod256(b0 * 65536 + b1 * 256 + b2, b3);
    DivMod256(b0 * 256 + b1, b2);
  }

  /** The digits `encode` emits for a chunk, one base-85 place each. */
  lemma {:induction false} EncodeChunkDigits(chunk: seq<Byte>)
    requires 1 <= |chunk| <= 4
    ensures AllInRange(EncodeChunk(chunk))
    ensures EncodeChunk(chunk)[0] as int - 33 == (FromBeBytes(PadZero(chunk)) / 52200625) % 85
    ensures EncodeChunk(chunk)[1] as int - 33 == (FromBeBytes(PadZero(chunk)) / 614125) % 85
    ensures |chunk| >= 2 ==> EncodeChunk(chunk)[2] as int - 33 == (FromBeBytes(PadZero(chunk)) / 7225) % 85
    ensures |chunk| >= 3 ==> EncodeChunk(chunk)[3] as int - 33 == (FromBeBytes(PadZero(chunk)) / 85) % 85
    ensures |chunk| == 4 ==> EncodeChunk(chunk)[4] as int - 33 == FromBeBytes(PadZero(chunk)) % 85
  {
  }

  /** The digits of a full chunk accumulate back to the chunk's number. */
  lemma {:induction false} FullChunkAcc(chunk: seq<Byte>)
    requires |chunk| == 4
    ensures AllInRange(EncodeChunk(chunk))
    ensures Acc(EncodeChunk(chunk)) == FromBeBytes(chunk)
  {
    assert PadZero(chunk) == chunk;
    EncodeChunkDigits(chunk);
    DigitsAcc(EncodeChunk(chunk), FromBeBytes(chunk));
  }

  /** A full chunk decodes back to itself, without the accumulator wrapping. */
  lemma {:induction false} FullChunkRoundTrip(chunk: seq<Byte>)
    requires |chunk| == 4
    ensures AllInRange(EncodeChunk(chunk))
    ensures Acc(EncodeChunk(chunk)) < U32
    ensures ToBeBytes(Acc(EncodeChunk(chunk)) % U32) == chunk
  {
    FullChunkAcc(chunk);
    BeBytesRoundTrip(chunk);
  }

  /**
   * A final chunk of k < 4 bytes gives k + 1 digits; padded with `u` they
   * accumulate to the zero-padded chunk N rounded down to a multiple of
   * 85^(4-k), plus 85^(4-k) - 1: a value in [N, N + 85^(4-k)).
   */
  lemma {:induction false} PartialChunkAcc(chunk: seq<Byte>)
    requires 1 <= |chunk| < 4
    ensures AllInRange(PadU(EncodeChunk(chunk)))
    ensures FromBeBytes(PadZero(chunk)) <= Acc(PadU(EncodeChunk(chunk))) < FromBeBytes(PadZero(chunk)) + TABLE[|chunk|]
  {
    var n := FromBeBytes(PadZero(chunk));
    var e := EncodeChunk(chunk);
    var g := PadU(e);
    EncodeChunkDigits(chunk);
    assert g[0] == e[0] && g[1] == e[1];
    AccFive(g);
    Base85(n);
    if |chunk| == 1 {
      assert g[2] == LOWER_U && g[3] == LOWER_U && g[4] == LOWER_U;
      assert Acc(g) == n - n % 614125 + 614124;
    } else if |chunk| == 2 {
      assert g[2] == e[2] && g[3] == LOWER_U && g[4] == LOWER_U;
      assert Acc(g) == n - n % 7225 + 7224;
    } else {
      assert g[2] == e[2] && g[3] == e[3] && g[4] == LOWER_U;
      assert Acc(g) == n - n % 85 + 84;
    }
  }

  /** Anything in [N, N + 85^(4-k)) starts with the same k bytes as the zero-padded chunk N. */
  lemma {:induction false} PartialChunkBytes(chunk: seq<Byte>, p: int)
    requires 1 <= |chunk| < 4
    requires FromBeBytes(PadZero(chunk)) <= p < FromBeBytes(PadZero(chunk)) + TABLE[|chunk|]
    ensures p < U32 && ToBeBytes(p)[..|chunk|] == chunk
  {
    var z := PadZero(chunk);
    var r := p - FromBeBytes(z);
    var c0 := chunk[0] as int;
    assert z[0] == chunk[0] && z[3] == 0;
    if |chunk| == 1 {
      assert z[1] == 0 && z[2] == 0;
      DivMod16777216(c0, r);
    } else if |chunk| == 2 {
      var c1 := chunk[1] as int;
      assert z[1] == chunk[1] && z[2] == 0;
      DivMod16777216(c0, c1 * 65536 + r);
      DivMod65536(c0 * 256 + c1, r);
      DivMod256(c0, c1);
    } else {
      var c1, c2 := chunk[1] as int, chunk[2] as int;
      assert z[1] == chunk[1] && z[2] == chunk[2];
      DivMod16777216(c0, c1 * 65536 + c2 * 256 + r);
      DivMod65536(c0 * 256 + c1, c2 * 256 + r);
      DivMod256(c0, c1);
      DivMod256(c0 * 65536 + c1 * 256 + c2, r);
      DivMod256(c0 * 256 + c1, c2);
    }
  }

  /** A final partial chunk decodes back to itself, without the accumulator wrapping. */
  lemma {:induction false} PartialChunkRoundTrip(chunk: seq<Byte>)
    requires 1 <= |chunk| < 4
    ensures AllInRange(PadU(EncodeChunk(chunk)))
    ensures Acc(PadU(EncodeChunk(chunk))) < U32
    ensures ToBeBytes(Acc(PadU(EncodeChunk(chunk))) % U32)[..|chunk|] == chunk
  {
    var p := Acc(PadU(EncodeChunk(chunk)));
    PartialChunkAcc(chunk);
    PartialChunkBytes(chunk, p);
    assert p % U32 == p;
  }

  // ---------------------------------------------------------------------------
  // Properties of the codec.
  // ---------------------------------------------------------------------------

  /** Output length of `encode`: 5 characters per full chunk, k + 1 for a final chunk of k < 4 bytes. */
  lemma {:induction false} EncodedLength(input: seq<Byte>)
    ensures |Encoded(input)| == 5 * (|input| / 4) + (if |input| % 4 == 0 then 0 else |input| % 4 + 1)
  {
    if |input| > 4 {
      EncodedLength(input[4..]);
    }
  }

  /** Every character `encode` emits lies in `!`..`u`; in particular it never emits `z`. */
  lemma {:induction false} EncodedInRange(input: seq<Byte>)
    ensures AllInRange(Encoded(input))
    ensures forall k :: 0 <= k < |Encoded(input)| ==> Encoded(input)[k] != LOWER_Z
  {
    if |input| > 0 {
      EncodeChunkDigits(if |input| <= 4 then input else input[..4]);
      if |input| > 4 {
        EncodedInRange(input[4..]);
      }
    }
  }

  /** Decoding distributes over whole groups. */
  lemma {:induction false} DecodeValidConcat(a: seq<Byte>, b: seq<Byte>)
    requires |a| % 5 == 0
    ensures DecodeValid(a + b) == DecodeValid(a) + DecodeValid(b)
    decreases |a|
  {
    if |a| > 0 {
      assert (a + b)[..5] == a[..5];
      assert (a + b)[5..] == a[5..] + b;
      DecodeValidConcat(a[5..], b);
    } else {
      assert a + b == b;
    }
  }

  lemma {:induction false} DecodeValidGroup(g: seq<Byte>)
    requires |g| == 5
    ensures DecodeValid(g) == ToBeBytes(Acc(g) % U32)
  {
    assert g[..5] == g;
    assert g[5..] == [];
  }

  /** Output length of `decode`: 4 bytes per group of 5, m - 1 bytes for a final group of m < 5. */
  lemma {:induction false} DecodedLength(s: seq<Byte>)
    ensures |DecodeValid(s)| == 4 * (|s| / 5) + (if |s| % 5 == 0 then 0 else |s| % 5 - 1)
  {
    if |s| >= 5 {
      DecodedLength(s[5..]);
    }
  }

  /** Round trip: decoding what `encode` produced gives back the original bytes. */
  lemma {:induction false} RoundTrip(input: seq<Byte>)
    ensures Decoded(Encoded(input)) == Ok(input)
  {
    EncodedInRange(input);
    FirstBadNone(Encoded(input));
    DecodeValidRoundTrip(input);
  }

  lemma {:induction false} DecodeValidRoundTrip(input: seq<Byte>)
    ensures AllInRange(Encoded(input))
    ensures DecodeValid(Encoded(input)) == input
  {
    EncodedInRange(input);
    if |input| == 0 {
    } else if |input| < 4 {
      PartialChunkRoundTrip(input);
    } else {
      var head := input[..4];
      var e := EncodeChunk(head);
      FullChunkRoundTrip(head);
      DecodeValidGroup(e);
      if |input| == 4 {
        assert head == input;
      } else {
        DecodeValidRoundTrip(input[4..]);
        DecodeValidConcat(e, Encoded(input[4..]));
        assert input == head + input[4..];
      }
    }
  }

  /** On anything `encode` produced, the `u32` accumulator never exceeds 2^32 - 1. */
  lemma {:induction false} EncodedNeverOverflows(input: seq<Byte>)
    ensures NoOverflow(Encoded(input))
  {
    if |input| == 0 {
    } else if |input| < 4 {
      PartialChunkRoundTrip(input);
      EncodeChunkDigits(input);
      GroupFitsIff(PadU(EncodeChunk(input)));
    } else {
      var head := input[..4];
      var e := EncodeChunk(head);
      FullChunkRoundTrip(head);
      GroupFitsIff(e);
      if |input| == 4 {
        assert head == input;
        NoOverflowConcat(e, []);
        assert e + [] == e;
      } else {
        EncodedNeverOverflows(input[4..]);
        NoOverflowConcat(e, Encoded(input[4..]));
      }
    }
  }

  /** A whole group in front of more input: no overflow in both parts means none in the whole. */
  lemma {:induction false} NoOverflowConcat(g: seq<Byte>, rest: seq<Byte>)
    requires |g| == 5
    ensures NoOverflow(g + rest) <==> GroupFits(g) && NoOverflow(rest)
  {
    assert (g + rest)[..5] == g && (g + rest)[5..] == rest;
  }

  /** Arbitrary input can overflow: the group `uuuuu` accumulates 85^5 - 1 > 2^32 - 1. */
  lemma {:induction false} UuuuuOverflows()
    ensures AllInRange([LOWER_U, LOWER_U, LOWER_U, LOWER_U, LOWER_U])
    ensures Acc([LOWER_U, LOWER_U, LOWER_U, LOWER_U, LOWER_U]) == 4437053124
    ensures !NoOverflow([LOWER_U, LOWER_U, LOWER_U, LOWER_U, LOWER_U])
  {
    var g := [LOWER_U, LOWER_U, LOWER_U, LOWER_U, LOWER_U];
    AccFive(g);
    GroupFitsIff(g);
    assert g[..5] == g && g[5..] == [];
  }

  lemma {:induction false} FirstBadNone(s: seq<Byte>)
    requires AllInRange(s)
    ensures FirstBad(s) == |s|
  {
    if |s| > 0 {
      FirstBadNone(s[1..]);
    }
  }

  lemma {:induction false} FirstBadAt(s: seq<Byte>, p: nat)
    requires p < |s| && AllInRange(s[..p]) && !InRange(s[p])
    ensures FirstBad(s) == p
  {
    if p > 0 {
      assert s[..p][0] == s[0];
      assert s[1..][..p - 1] == s[1..p];
      FirstBadAt(s[1..], p - 1);
    }
  }

  /**
   * The error cases: the first character outside `!`..`u` gives `OutOfRange`,
   * unless it is a `z` inside a group, which gives `MisalignedZ`; a `z` at a
   * group boundary is out of range too.
   */
  lemma {:induction false} DecodedErrors(s: seq<Byte>, p: nat)
    requires p < |s| && !InRange(s[p]) && AllInRange(s[..p])
    ensures Decoded(s) == if s[p] == LOWER_Z && p % 5 != 0 then Err(MisalignedZ) else Err(OutOfRange)
  {
    FirstBadAt(s, p);
  }

  /** One more character in range extends the prefix known to be in range. */
  lemma {:induction false} RangeStep(s: seq<Byte>, p: nat)
    requires p < |s| && AllInRange(s[..p]) && InRange(s[p])
    ensures AllInRange(s[..p + 1])
  {
    assert s[..p + 1] == s[..p] + [s[p]];
  }

  // ---------------------------------------------------------------------------
  // The `z` shorthand as it is evidently meant to work.
  // ---------------------------------------------------------------------------

  /** Decoded bytes in front of a decoding result; an error passes through. */
  function Prepend(b: seq<Byte>, r: Result<seq<Byte>, Ascii85Error>): Result<seq<Byte>, Ascii85Error>
  {
    if r.Ok? then Ok(b + r.value) else r
  }

  /**
   * `decode` with the `z` branch completed: a `z` at a group boundary stands for
   * four zero bytes and decoding goes on with the next character (as in
   * ASCII85Decode), instead of falling through to the range check. `group` is
   * the partial group read so far.
   */
  function DecodedWithZ(s: seq<Byte>, group: seq<Byte>): Result<seq<Byte>, Ascii85Error>
    requires |group| < 5
    decreases |s|
  {
    if |s| == 0 then Ok(DecodeValid(group))
    else if s[0] == LOWER_Z then
      if |group| == 0 then Prepend([0, 0, 0, 0], DecodedWithZ(s[1..], []))
      else Err(MisalignedZ)
    else if !InRange(s[0]) then Err(OutOfRange)
    else if |group| == 4 then Prepend(DecodeValid(group + [s[0]]), DecodedWithZ(s[1..], []))
    else DecodedWithZ(s[1..], group + [s[0]])
  }

  lemma PrependPrepend(a: seq<Byte>, b: seq<Byte>, r: Result<seq<Byte>, Ascii85Error>)
    ensures Prepend(a, Prepend(b, r)) == Prepend(a + b, r)
  {
    if r.Ok? {
      assert a + (b + r.value) == (a + b) + r.value;
    }
  }

  lemma {:induction false} AllInRangeTail(s: seq<Byte>)
    requires |s| > 0 && AllInRange(s)
    ensures AllInRange(s[1..])
  {
    forall k | 0 <= k < |s| - 1 ensures InRange(s[1..][k]) {
      assert s[1..][k] == s[k + 1];
    }
  }

  /** On input all in range the completed decoder decodes exactly as `DecodeValid`. */
  lemma {:induction false} WithZValid(s: seq<Byte>, group: seq<Byte>)
    requires |group| < 5 && AllInRange(s)
    ensures DecodedWithZ(s, group) == Ok(DecodeValid(group + s))
    decreases |s|
  {
    if |s| == 0 {
      assert group + s == group;
    } else {
      assert InRange(s[0]);
      AllInRangeTail(s);
      var g := group + [s[0]];
      assert g + s[1..] == group + s;
      if |group| == 4 {
        WithZValid(s[1..], []);
        assert [] + s[1..] == s[1..];
        DecodeValidConcat(g, s[1..]);
      } else {
        WithZValid(s[1..], g);
      }
    }
  }

  /** A character out of range that is not `z` is an `OutOfRange` error for the completed decoder too. */
  lemma {:induction false} WithZOutOfRange(s: seq<Byte>, group: seq<Byte>, p: nat)
    requires |group| < 5 && p < |s| && AllInRange(s[..p]) && !InRange(s[p]) && s[p] != LOWER_Z
    ensures DecodedWithZ(s, group) == Err(OutOfRange)
    decreases p
  {
    if p > 0 {
      assert s[..p][0] == s[0];
      assert InRange(s[0]);
      assert s[1..][..p - 1] == s[1..p];
      AllInRangeTail(s[..p]);
      assert s[..p][1..] == s[1..p];
      if |group| == 4 {
        WithZOutOfRange(s[1..], [], p - 1);
      } else {
        WithZOutOfRange(s[1..], group + [s[0]], p - 1);
      }
    }
  }

  /** Without any `z` in the input the completed decoder and `decode` agree, errors included. */
  lemma AgreesWithoutZ(s: seq<Byte>)
    requires forall k :: 0 <= k < |s| ==> s[k] != LOWER_Z
    ensures DecodedWithZ(s, []) == Decoded(s)
  {
    var p := FirstBad(s);
    if p == |s| {
      assert s[..p] == s;
      WithZValid(s, []);
      assert [] + s == s;
    } else {
      WithZOutOfRange(s, [], p);
    }
  }

  /** Whole groups in range in front of the rest decode on their own. */
  lemma {:induction false} WithZPrefix(a: seq<Byte>, rest: seq<Byte>, group: seq<Byte>)
    requires |group| < 5 && AllInRange(a) && (|group| + |a|) % 5 == 0
    ensures DecodedWithZ(a + rest, group) == Prepend(DecodeValid(group + a), DecodedWithZ(rest, []))
    decreases |a|
  {
    if |a| == 0 {
      assert group == [] && group + a == [] && a + rest == rest;
      PrependPrepend([], [], DecodedWithZ(rest, []));
      assert DecodedWithZ(rest, []).Ok? ==> [] + DecodedWithZ(rest, []).value == DecodedWithZ(rest, []).value;
    } else {
      assert InRange(a[0]);
      AllInRangeTail(a);
      assert (a + rest)[0] == a[0] && (a + rest)[1..] == a[1..] + rest;
      var g := group + [a[0]];
      assert g + a[1..] == group + a;
      if |group| == 4 {
        WithZPrefix(a[1..], rest, []);
        assert [] + a[1..] == a[1..];
        PrependPrepend(DecodeValid(g), DecodeValid(a[1..]), DecodedWithZ(rest, []));
        DecodeValidConcat(g, a[1..]);
      } else {
        WithZPrefix(a[1..], rest, g);
      }
    }
  }

  /** A leading `z` decodes to four zero bytes in front of the rest. */
  lemma ZeroGroupHead(b: seq<Byte>)
    ensures DecodedWithZ([LOWER_Z] + b, []) == Prepend([0, 0, 0, 0], DecodedWithZ(b, []))
  {
    assert ([LOWER_Z] + b)[0] == LOWER_Z && ([LOWER_Z] + b)[1..] == b;
  }

  /** The group `!!!!!` is the value 0, four zero bytes. */
  lemma ZeroDigitsGroup()
    ensures AllInRange(ZERO_DIGITS)
    ensures DecodeValid(ZERO_DIGITS) == [0, 0, 0, 0]
  {
    AccFive(ZERO_DIGITS);
    DecodeValidGroup(ZERO_DIGITS);
  }

  /**
   * The intended meaning of `z`: after whole groups, a `z` decodes to four zero
   * bytes, exactly as the group `!!!!!` does.
   */
  lemma ZeroGroupShorthand(a: seq<Byte>, b: seq<Byte>)
    requires AllInRange(a) && |a| % 5 == 0
    ensures DecodedWithZ(a + [LOWER_Z] + b, []) == Prepend(DecodeValid(a) + [0, 0, 0, 0], DecodedWithZ(b, []))
    ensures DecodedWithZ(a + [LOWER_Z] + b, []) == DecodedWithZ(a + ZERO_DIGITS + b, [])
  {
    var r := DecodedWithZ(b, []);
    assert a + [LOWER_Z] + b == a + ([LOWER_Z] + b);
    WithZPrefix(a, [LOWER_Z] + b, []);
    assert [] + a == a;
    ZeroGroupHead(b);
    PrependPrepend(DecodeValid(a), [0, 0, 0, 0], r);
    ZeroDigitsGroup();
    DecodeValidConcat(a, ZERO_DIGITS);
    assert AllInRange(a + ZERO_DIGITS);
    WithZPrefix(a + ZERO_DIGITS, b, []);
    assert [] + (a + ZERO_DIGITS) == a + ZERO_DIGITS;
  }

  /** The completed decoder still inverts `encode`. */
  lemma WithZRoundTrip(input: seq<Byte>)
    ensures DecodedWithZ(Encoded(input), []) == Ok(input)
  {
    DecodeValidRoundTrip(input);
    WithZValid(Encoded(input), []);
    assert [] + Encoded(input) == Encoded(input);
  }

  /** As written, `decode` rejects the lone `z` that stands for four zero bytes. */
  lemma LoneZRejected()
    ensures Decoded([LOWER_Z]) == Err(OutOfRange)
    ensures DecodedWithZ([LOWER_Z], []) == Ok([0, 0, 0, 0])
  {
    DecodedErrors([LOWER_Z], 0);
    assert [LOWER_Z][1..] == [];
    assert DecodedWithZ([], []) == Ok([]);
    assert [0, 0, 0, 0] + [] == [0, 0, 0, 0];
  }
}
