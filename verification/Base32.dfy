/** The base32 of section 6 of RFC 4648, unpadded, over a 32-bit accumulator that is never cleared. */
module Base32 {
  import opened Prelude
  import opened Numerals

  const ALPHABET := "ABCDEFGHIJKLMNOPQRSTUVWXYZ234567"

  type Byte = b: nat | b < 256

  function IndexIn(alphabet: string, c: char): (r: Option<nat>)
    ensures r.Some? ==> r.value < |alphabet| && alphabet[r.value] == c
    ensures r.None? ==> c !in alphabet
  {
    if alphabet == "" then None
    else if alphabet[0] == c then Some(0)
    else
      match IndexIn(alphabet[1..], c)
      case None => None
      case Some(i) => Some(i + 1)
  }

  /** The five-bit digit a character stands for; 0 for any other character. */
  function Digit(c: char): (d: nat)
    ensures d < 32
  {
    match IndexIn(ALPHABET, c)
    case Some(i) => i
    case None => 0
  }

  predicate IsBase32(c: char) { c in ALPHABET }

  predicate IsText(s: string) { forall c :: c in s ==> IsBase32(c) }

  function Digits(s: string): (r: seq<nat>)
    ensures |r| == |s| && IsNumeral(32, r)
  {
    seq(|s|, i requires 0 <= i < |s| => Digit(s[i]))
  }

  /** As many characters as five bits at a time need. */
  function EncodedLength(n: nat): nat { (8 * n + 4) / 5 }

  /** The bits of `bytes`, padded with zeros to a multiple of five, are the bits of `text`. */
  predicate IsEncoding(bytes: seq<Byte>, text: string) {
    && |text| == EncodedLength(|bytes|)
    && IsText(text)
    && Num(32, Digits(text)) == Num(256, bytes) * Pow2(5 * |text| - 8 * |bytes|)
  }

  /** The bits of `text`, without the last few that fill no byte, are the bits of `bytes`. */
  predicate IsDecoding(text: string, bytes: seq<Byte>) {
    && |bytes| == 5 * |text| / 8
    && Num(256, bytes) == Num(32, Digits(text)) / Pow2(5 * |text| - 8 * |bytes|)
  }

  lemma CharDigit(d: nat)
    requires d < 32
    ensures Digit(ALPHABET[d]) == d && IsBase32(ALPHABET[d])
  {
    AlphabetOnce(Digit(ALPHABET[d]), d);
  }

  lemma AlphabetOnce(i: nat, j: nat)
    requires i < 32 && j < 32 && ALPHABET[i] == ALPHABET[j]
    ensures i == j
  {
    AlphabetCode(i);
    AlphabetCode(j);
  }

  lemma AlphabetCode(i: nat)
    requires i < 32
    ensures ALPHABET[i] as int == if i < 26 then 65 + i else 24 + i
  {
  }

  /** What the accumulator holds: `bits` low bits not yet written out. */
  ghost predicate Pending(whole: nat, written: nat, bits: nat, value: nat) {
    value < WORD && whole == written * Pow2(bits) + value % Pow2(bits)
  }

  lemma Powers()
    ensures Pow2(0) == 1 && Pow2(1) == 2 && Pow2(2) == 4 && Pow2(3) == 8 && Pow2(4) == 16 && Pow2(5) == 32
    ensures Pow2(6) == 64 && Pow2(7) == 128 && Pow2(8) == 256 && Pow2(9) == 512 && Pow2(10) == 1024
    ensures Pow2(11) == 2048 && Pow2(12) == 4096
  {
  }

  lemma PowDividesWord(n: nat)
    requires n <= 32
    ensures WORD == Pow2(n) * Pow2(32 - n)
  {
    hide Pow2;
    PowSplit(n, 32 - n);
    PowSplit(16, 16);
    PowSplit(8, 8);
    Powers();
  }

  /** Dropping the bits above the word does not change those below it. */
  lemma WordKeepsLow(x: nat, n: nat)
    requires n <= 32
    ensures x % WORD % Pow2(n) == x % Pow2(n)
  {
    hide Pow2;
    PowDividesWord(n);
    ModOfMod(x, Pow2(n), Pow2(32 - n));
  }

  lemma Parts(x: nat, n: nat) returns (q: nat, r: nat)
    requires n > 0
    ensures x == q * n + r && r == x % n < n
  {
    q, r := x / n, x % n;
  }

  lemma ModOfMod(x: nat, m: nat, k: nat)
    requires m > 0 && k > 0
    ensures m * k > 0 && x % (m * k) % m == x % m
  {
    AtLeastOnce(k, m);
    var n := m * k;
    var q, r := Parts(x, n);
    var q', r' := Parts(r, m);
    Regroup(q, m, k, q', r');
    Remainder(x, m, q * k + q', r');
  }

  lemma Regroup(q: nat, m: nat, k: nat, q': nat, r: nat)
    ensures q * (m * k) + (q' * m + r) == (q * k + q') * m + r
  {
    assert q * (m * k) == q * k * m;
    assert (q * k + q') * m == q * k * m + q' * m;
  }

  lemma ScaledMod(x: nat, m: nat, k: nat, low: nat)
    requires m > 0 && low < k
    ensures (x * k + low) % (m * k) == x % m * k + low
  {
    var q, r := Parts(x, m);
    ScaledParts(q, r, m, k, low);
    Remainder(x * k + low, m * k, q, r * k + low);
  }

  lemma ScaledParts(q: nat, r: nat, m: nat, k: nat, low: nat)
    requires r < m && low < k
    ensures (q * m + r) * k + low == q * (m * k) + (r * k + low) && r * k + low < m * k
  {
    Distribute(q, m, k, r);
    AtMost(r + 1, m, k);
    assert (r + 1) * k == r * k + k;
  }

  lemma Distribute(w: nat, a: nat, b: nat, c: nat)
    ensures (w * a + c) * b == w * (a * b) + c * b
  {
    assert w * a * b == w * (a * b);
  }

  lemma ShiftThenOr(value: nat, k: nat, low: nat)
    requires k <= 32 && low < Pow2(k)
    ensures Or(Shl(value, k), low) == (value * Pow2(k) + low) % WORD
  {
    hide Pow2, Or;
    var p, m := Pow2(k), Pow2(32 - k);
    PowDividesWord(k);
    assert m * p == WORD;
    ScaledMod(value, m, p, 0);
    ScaledMod(value, m, p, low);
    assert Shl(value, k) == value % m * p;
    OrAdds(value % m, low, k);
  }

  lemma LowAfterPush(value: nat, bits: nat, k: nat, low: nat)
    requires bits + k <= 32 && low < Pow2(k)
    ensures (value * Pow2(k) + low) % WORD % Pow2(bits + k) == value % Pow2(bits) * Pow2(k) + low
  {
    WordKeepsLow(value * Pow2(k) + low, bits + k);
    PowSplit(bits, k);
    ScaledMod(value, Pow2(bits), Pow2(k), low);
  }

  /** `value = (value << k) | low` appends the `k` bits of `low`. */
  lemma PushBits(whole: nat, written: nat, bits: nat, value: nat, k: nat, low: nat)
    requires Pending(whole, written, bits, value)
    requires bits + k <= 32 && low < Pow2(k)
    ensures Pending(whole * Pow2(k) + low, written, bits + k, Or(Shl(value, k), low))
  {
    hide Pow2, Or, Shl;
    ShiftThenOr(value, k, low);
    LowAfterPush(value, bits, k, low);
    PowSplit(bits, k);
    Distribute(written, Pow2(bits), Pow2(k), value % Pow2(bits));
  }

  lemma SplitLow(value: nat, k: nat, rest: nat)
    ensures value % Pow2(k + rest) == UShr(value, rest) % Pow2(k) * Pow2(rest) + value % Pow2(rest)
  {
    hide Pow2, UShr;
    PowSplit(k, rest);
    UShrDivides(value, rest);
    ScaledMod(value / Pow2(rest), Pow2(k), Pow2(rest), value % Pow2(rest));
    assert value == value / Pow2(rest) * Pow2(rest) + value % Pow2(rest);
  }

  /** `(value >>> (bits - k)) & (2^k - 1)` writes the top `k` pending bits out. */
  lemma PopBits(whole: nat, written: nat, bits: nat, value: nat, k: nat)
    requires Pending(whole, written, bits, value) && k <= bits
    ensures var digit := And(UShr(value, bits - k), Pow2(k) - 1);
            digit < Pow2(k) && Pending(whole, written * Pow2(k) + digit, bits - k, value)
  {
    hide Pow2, And, UShr;
    var rest := bits - k;
    var digit := And(UShr(value, rest), Pow2(k) - 1);
    AndMasks(UShr(value, rest), k);
    SplitLow(value, k, rest);
    PowSplit(k, rest);
    var p, low := Pow2(rest), value % Pow2(rest);
    assert k + rest == bits;
    assert whole == written * (Pow2(k) * p) + (digit * p + low);
    Distribute(written, Pow2(k), p, digit);
  }

  // --- Encoding ---

  lemma DigitWritten(output: string, d: nat)
    requires d < 32
    ensures Digits(output + [ALPHABET[d]]) == Digits(output) + [d]
    ensures Num(32, Digits(output + [ALPHABET[d]])) == Num(32, Digits(output)) * 32 + d
  {
    CharDigit(d);
    assert Digits(output + [ALPHABET[d]]) == Digits(output) + [d];
    NumMore(32, Digits(output), d);
  }

  lemma TextGrows(output: string, d: nat)
    requires IsText(output) && d < 32
    ensures IsText(output + [ALPHABET[d]])
  {
    hide IsBase32;
    CharDigit(d);
  }

  lemma ByteRead(bytes: seq<Byte>, i: nat, written: nat, bits: nat, value: nat)
    requires i < |bytes| && bits < 5 && Pending(Num(256, bytes[..i]), written, bits, value)
    ensures Pending(Num(256, bytes[..i + 1]), written, bits + 8, Or(Shl(value, 8), bytes[i]))
  {
    hide Pending;
    assert bytes[..i + 1] == bytes[..i] + [bytes[i]];
    NumMore(256, bytes[..i], bytes[i]);
    Powers();
    PushBits(Num(256, bytes[..i]), written, bits, value, 8, bytes[i]);
  }

  lemma DigitTaken(whole: nat, output: string, bits: nat, value: nat)
    requires bits >= 5 && IsText(output) && Pending(whole, Num(32, Digits(output)), bits, value)
    ensures var digit := And(UShr(value, bits - 5), 31);
            digit < 32 && IsText(output + [ALPHABET[digit]])
            && Pending(whole, Num(32, Digits(output + [ALPHABET[digit]])), bits - 5, value)
  {
    hide Pending, Num, Digits, Pow2, And, UShr, IsText;
    Powers();
    PopBits(whole, Num(32, Digits(output)), bits, value, 5);
    DigitWritten(output, And(UShr(value, bits - 5), 31));
    TextGrows(output, And(UShr(value, bits - 5), 31));
  }

  method Base32Encode(bytes: seq<Byte>) returns (output: string)
    ensures IsEncoding(bytes, output)
  {
    hide Pow2, Or, And, Shl, UShr, Num, Digits, Pending, IsText;
    var bits, value := 0, 0;
    output := "";
    Nothing();
    for i := 0 to |bytes|
      invariant 0 <= bits < 5 && 5 * |output| + bits == 8 * i
      invariant IsText(output)
      invariant Pending(Num(256, bytes[..i]), Num(32, Digits(output)), bits, value)
    {
      ByteRead(bytes, i, Num(32, Digits(output)), bits, value);
      value := Or(Shl(value, 8), bytes[i]);
      bits := bits + 8;
      while bits >= 5
        invariant 0 <= bits < 13 && 5 * |output| + bits == 8 * i + 8
        invariant IsText(output)
        invariant Pending(Num(256, bytes[..i + 1]), Num(32, Digits(output)), bits, value)
      {
        DigitTaken(Num(256, bytes[..i + 1]), output, bits, value);
        output := output + [ALPHABET[And(UShr(value, bits - 5), 31)]];
        bits := bits - 5;
      }
    }
    assert bytes[..|bytes|] == bytes;
    LastDigit(Num(256, bytes), output, bits, value);
    if bits > 0 {
      output := output + [ALPHABET[And(Shl(value, 5 - bits), 31)]];
    }
  }

  lemma Nothing()
    ensures Pending(Num(256, []), Num(32, Digits("")), 0, 0) && IsText("")
  {
  }

  /** The bits left at the end, padded with zeros, are the last digit. */
  lemma LastDigit(whole: nat, output: string, bits: nat, value: nat)
    requires Pending(whole, Num(32, Digits(output)), bits, value) && bits < 5 && IsText(output)
    ensures bits == 0 ==> Num(32, Digits(output)) == whole * Pow2(0)
    ensures bits > 0 ==>
              var digit := And(Shl(value, 5 - bits), 31);
              digit < 32 && IsText(output + [ALPHABET[digit]])
              && Num(32, Digits(output + [ALPHABET[digit]])) == whole * Pow2(5 - bits)
  {
    hide Num, Digits, Pow2, And, Shl, IsText;
    Powers();
    if bits > 0 {
      PaddedDigit(whole, Num(32, Digits(output)), bits, value);
      DigitWritten(output, And(Shl(value, 5 - bits), 31));
      TextGrows(output, And(Shl(value, 5 - bits), 31));
    }
  }

  lemma PaddedDigit(whole: nat, written: nat, bits: nat, value: nat)
    requires Pending(whole, written, bits, value) && 0 < bits < 5
    ensures var digit := And(Shl(value, 5 - bits), 31);
            digit < 32 && written * 32 + digit == whole * Pow2(5 - bits)
  {
    hide And, Pow2;
    var k := 5 - bits;
    Powers();
    PowSplit(bits, k);
    AndMasks(Shl(value, k), 5);
    LowAfterPush(value, bits, k, 0);
    Distribute(written, Pow2(bits), Pow2(k), value % Pow2(bits));
  }

  // --- Decoding ---

  predicate IsIgnored(c: char) { IsSpace(c) || c == '=' }

  /**
   * `toUpperCase` of one character. Besides a to z these are all the characters whose upper case has an ASCII
   * letter in it. What the others outside ASCII become is left to a table, and any table will do.
   */
  function Upper(c: char, table: char -> string): string {
    if 'a' <= c <= 'z' then [(c as int - 32) as char]
    else
      match c as int
      case 0xDF => "SS"
      case 0x131 => "I"
      case 0x149 => [0x2BC as char, 'N']
      case 0x17F => "S"
      case 0x1F0 => ['J', 0x30C as char]
      case 0x1E96 => ['H', 0x331 as char]
      case 0x1E97 => ['T', 0x308 as char]
      case 0x1E98 => ['W', 0x30A as char]
      case 0x1E99 => ['Y', 0x30A as char]
      case 0x1E9A => ['A', 0x2BE as char]
      case 0xFB00 => "FF"
      case 0xFB01 => "FI"
      case 0xFB02 => "FL"
      case 0xFB03 => "FFI"
      case 0xFB04 => "FFL"
      case 0xFB05 => "ST"
      case 0xFB06 => "ST"
      case _ => if c as int < 0x80 || IsIgnored(c) then [c] else table(c)
  }

  function Uppered(s: string, table: char -> string): string {
    if s == "" then "" else Upper(s[0], table) + Uppered(s[1..], table)
  }

  /** Without white space and `=`. */
  function Stripped(s: string): string {
    if s == "" then "" else (if IsIgnored(s[0]) then "" else [s[0]]) + Stripped(s[1..])
  }

  function Clean(encoded: string, table: char -> string): string { Stripped(Uppered(encoded, table)) }

  lemma DigitRead(cleaned: string, i: nat, index: nat, written: nat, bits: nat, value: nat)
    requires i < |cleaned| && bits < 8 && IndexIn(ALPHABET, cleaned[i]) == Some(index)
    requires Pending(Num(32, Digits(cleaned[..i])), written, bits, value)
    ensures Pending(Num(32, Digits(cleaned[..i + 1])), written, bits + 5, Or(Shl(value, 5), index))
  {
    hide Pending, Num, Pow2, Or, Shl, IndexIn;
    assert Digits(cleaned[..i + 1]) == Digits(cleaned[..i]) + [index];
    NumMore(32, Digits(cleaned[..i]), index);
    Powers();
    PushBits(Num(32, Digits(cleaned[..i])), written, bits, value, 5, index);
  }

  lemma ByteTaken(whole: nat, bytes: seq<Byte>, bits: nat, value: nat)
    requires bits >= 8 && Pending(whole, Num(256, bytes), bits, value)
    ensures var byte := And(UShr(value, bits - 8), 255);
            byte < 256 && Pending(whole, Num(256, bytes + [byte]), bits - 8, value)
  {
    hide Pending, Num, Pow2, And, UShr;
    Powers();
    PopBits(whole, Num(256, bytes), bits, value, 8);
    NumMore(256, bytes, And(UShr(value, bits - 8), 255));
  }

  method Base32Decode(encoded: string, table: char -> string) returns (r: Result<seq<Byte>, char>)
    ensures var cleaned := Clean(encoded, table);
            && (r.Ok? <==> IsText(cleaned))
            && (r.Ok? ==> IsDecoding(cleaned, r.value))
            && (r.Err? ==> exists i :: 0 <= i < |cleaned| && cleaned[i] == r.error && !IsBase32(r.error)
                                       && IsText(cleaned[..i]))
  {
    hide Pow2, Or, And, Shl, UShr, Num, Digits, Pending, Clean, IsBase32, IndexIn;
    var cleaned := Clean(encoded, table);
    var bits, value := 0, 0;
    var bytes: seq<Byte> := [];
    NothingRead();
    for i := 0 to |cleaned|
      invariant 0 <= bits < 8 && 8 * |bytes| + bits == 5 * i
      invariant IsText(cleaned[..i])
      invariant Pending(Num(32, Digits(cleaned[..i])), Num(256, bytes), bits, value)
    {
      IndexIsBase32(cleaned[i]);
      assert cleaned[..i + 1] == cleaned[..i] + [cleaned[i]];
      var index := IndexIn(ALPHABET, cleaned[i]);
      if index.None? {
        assert cleaned[i] in cleaned;
        return Err(cleaned[i]);
      }
      DigitRead(cleaned, i, index.value, Num(256, bytes), bits, value);
      value := Or(Shl(value, 5), index.value);
      bits := bits + 5;
      if bits >= 8 {
        ByteTaken(Num(32, Digits(cleaned[..i + 1])), bytes, bits, value);
        bytes := bytes + [And(UShr(value, bits - 8), 255)];
        bits := bits - 8;
      }
    }
    assert cleaned[..|cleaned|] == cleaned;
    LastBits(Num(32, Digits(cleaned)), Num(256, bytes), bits, value);
    r := Ok(bytes);
  }

  lemma IndexIsBase32(c: char)
    ensures IndexIn(ALPHABET, c).Some? <==> IsBase32(c)
  {
  }

  lemma NothingRead()
    ensures Pending(Num(32, Digits([])), Num(256, []), 0, 0)
  {
  }

  lemma LastBits(whole: nat, written: nat, bits: nat, value: nat)
    requires Pending(whole, written, bits, value)
    ensures written == whole / Pow2(bits)
  {
    Remainder(whole, Pow2(bits), written, value % Pow2(bits));
  }

  // --- Round trips ---

  lemma UpperStays(c: char, table: char -> string)
    requires IsBase32(c)
    ensures Upper(c, table) == [c] && !IsIgnored(c)
  {
    hide Upper, IsIgnored;
    var i :| 0 <= i < |ALPHABET| && ALPHABET[i] == c;
    AlphabetCode(i);
    CodeStays(c, table);
  }

  lemma CodeStays(c: char, table: char -> string)
    requires 50 <= c as int <= 55 || 65 <= c as int <= 90
    ensures Upper(c, table) == [c] && !IsIgnored(c)
  {
  }

  lemma CleanStays(text: string, table: char -> string)
    requires IsText(text)
    ensures Clean(text, table) == text
  {
    hide IsIgnored, Upper, IsBase32;
    if text != "" {
      assert text[0] in text;
      UpperStays(text[0], table);
      CleanStays(text[1..], table);
      assert Uppered(text, table) == [text[0]] + Uppered(text[1..], table);
      assert Uppered(text, table)[1..] == Uppered(text[1..], table);
    }
  }

  /** Decoding what was encoded gives the bytes back. */
  lemma DecodeEncoded(bytes: seq<Byte>, text: string, decoded: seq<Byte>)
    requires IsEncoding(bytes, text) && IsDecoding(text, decoded)
    ensures decoded == bytes
  {
    var pad := Pow2(5 * |text| - 8 * |bytes|);
    Remainder(Num(32, Digits(text)), pad, Num(256, bytes), 0);
    NumInjective(256, decoded, bytes);
  }

  method RoundTrip(bytes: seq<Byte>, table: char -> string) returns (r: Result<seq<Byte>, char>)
    ensures r == Ok(bytes)
  {
    var text := Base32Encode(bytes);
    CleanStays(text, table);
    r := Base32Decode(text, table);
    DecodeEncoded(bytes, text, r.value);
  }

  lemma DigitsInjective(a: string, b: string)
    requires IsText(a) && IsText(b)
    requires Digits(a) == Digits(b)
    ensures a == b
  {
    forall i | 0 <= i < |a| ensures a[i] == b[i] {
      assert a[i] in a && b[i] in b && Digits(a)[i] == Digits(b)[i];
    }
  }

  /** Encoding what was decoded gives the text back just when no bit was dropped and no character too many was there. */
  lemma EncodeDecoded(text: string, bytes: seq<Byte>, encoded: string)
    requires IsText(text) && IsDecoding(text, bytes) && IsEncoding(bytes, encoded)
    ensures var spare := 5 * |text| - 8 * |bytes|;
            encoded == text <==> spare < 5 && Num(32, Digits(text)) % Pow2(spare) == 0
  {
    hide Pow2, Num, Digits;
    var spare := 5 * |text| - 8 * |bytes|;
    if encoded == text {
      Remainder(Num(32, Digits(text)), Pow2(spare), Num(256, bytes), 0);
    }
    if spare < 5 && Num(32, Digits(text)) % Pow2(spare) == 0 {
      assert |encoded| == |text|;
      assert Num(32, Digits(encoded)) == Num(32, Digits(text));
      NumInjective(32, Digits(encoded), Digits(text));
      DigitsInjective(encoded, text);
    }
  }

  /** Two encodings of the same bytes are the same text. */
  lemma EncodingUnique(bytes: seq<Byte>, a: string, b: string)
    requires IsEncoding(bytes, a) && IsEncoding(bytes, b)
    ensures a == b
  {
    NumInjective(32, Digits(a), Digits(b));
    DigitsInjective(a, b);
  }

  lemma {:induction false} UpperedJoins(a: string, b: string, table: char -> string)
    ensures Uppered(a + b, table) == Uppered(a, table) + Uppered(b, table)
  {
    if a == "" {
      assert a + b == b;
    } else {
      assert (a + b)[1..] == a[1..] + b;
      UpperedJoins(a[1..], b, table);
    }
  }

  lemma {:induction false} StrippedJoins(a: string, b: string)
    ensures Stripped(a + b) == Stripped(a) + Stripped(b)
  {
    if a == "" {
      assert a + b == b;
    } else {
      assert (a + b)[1..] == a[1..] + b;
      StrippedJoins(a[1..], b);
    }
  }

  lemma CleanJoins(a: string, b: string, table: char -> string)
    ensures Clean(a + b, table) == Clean(a, table) + Clean(b, table)
  {
    UpperedJoins(a, b, table);
    StrippedJoins(Uppered(a, table), Uppered(b, table));
  }

  lemma IgnoredStays(c: char, table: char -> string)
    requires IsIgnored(c)
    ensures Upper(c, table) == [c]
  {
  }

  lemma {:induction false} IgnoredVanish(s: string, table: char -> string)
    requires forall c :: c in s ==> IsIgnored(c)
    ensures Clean(s, table) == ""
  {
    hide IsIgnored, Upper;
    if s != "" {
      assert s[0] in s;
      IgnoredStays(s[0], table);
      IgnoredVanish(s[1..], table);
      assert Uppered(s, table)[1..] == Uppered(s[1..], table);
    }
  }

  /** Separators and padding typed anywhere do not change what is decoded. */
  lemma SeparatorsIgnored(a: string, separators: string, b: string, table: char -> string)
    requires forall c :: c in separators ==> IsIgnored(c)
    ensures Clean(a + separators + b, table) == Clean(a + b, table)
  {
    CleanJoins(a + separators, b, table);
    CleanJoins(a, separators, table);
    CleanJoins(a, b, table);
    IgnoredVanish(separators, table);
  }

  /** Nor does the case it is typed in, in any characters of the same upper case. */
  lemma CaseIgnored(a: string, b: string, table: char -> string)
    requires |a| == |b| && forall i :: 0 <= i < |a| ==> Upper(a[i], table) == Upper(b[i], table)
    ensures Clean(a, table) == Clean(b, table)
  {
    UpperedAlike(a, b, table);
  }

  lemma {:induction false} UpperedAlike(a: string, b: string, table: char -> string)
    requires |a| == |b| && forall i :: 0 <= i < |a| ==> Upper(a[i], table) == Upper(b[i], table)
    ensures Uppered(a, table) == Uppered(b, table)
  {
    hide Upper;
    if a != "" { UpperedAlike(a[1..], b[1..], table); }
  }

  /** What is read is base32 exactly when the upper case of every character is, but for what is ignored. */
  lemma {:induction false} CleanIsText(s: string, table: char -> string)
    ensures IsText(Clean(s, table))
            <==> forall c, u :: c in s && u in Upper(c, table) && !IsIgnored(u) ==> IsBase32(u)
  {
    hide IsIgnored, Upper, IsBase32;
    if s != "" {
      assert s == [s[0]] + s[1..];
      CleanIsText(s[1..], table);
      StrippedJoins(Upper(s[0], table), Uppered(s[1..], table));
      StrippedMembers(Upper(s[0], table));
      var first := Stripped(Upper(s[0], table));
      assert IsText(Clean(s, table)) <==> IsText(first) && IsText(Clean(s[1..], table)) by {
        TextJoins(first, Clean(s[1..], table));
      }
    }
  }

  lemma TextJoins(a: string, b: string)
    ensures IsText(a + b) <==> IsText(a) && IsText(b)
  {
    assert forall c :: c in a + b <==> c in a || c in b;
  }

  lemma {:induction false} StrippedMembers(s: string)
    ensures forall c :: c in Stripped(s) <==> c in s && !IsIgnored(c)
  {
    hide IsIgnored;
    if s != "" {
      assert s == [s[0]] + s[1..];
      StrippedMembers(s[1..]);
    }
  }

  /**
   * Outside ASCII, white space apart, the characters accepted are sharp s, dotless i, long s and seven ligatures,
   * whatever the others become, so long as some of it is outside ASCII too.
   */
  lemma OutsideAsciiIff(c: char, table: char -> string)
    requires c as int >= 0x80 && !IsSpace(c) && LeavesAscii(table(c))
    ensures IsText(Clean([c], table))
            <==> c as int in {0xDF, 0x131, 0x17F, 0xFB00, 0xFB01, 0xFB02, 0xFB03, 0xFB04, 0xFB05, 0xFB06}
  {
    CleanIsText([c], table);
    hide IsBase32, Clean;
    var upper := Upper(c, table);
    if c as int in {0xDF, 0x131, 0x17F, 0xFB00, 0xFB01, 0xFB02, 0xFB03, 0xFB04, 0xFB05, 0xFB06} {
      LettersAreBase32(upper);
    } else {
      var u: char;
      if c as int == 0x149 {
        u := upper[0];
      } else if c as int in {0x1F0, 0x1E96, 0x1E97, 0x1E98, 0x1E99, 0x1E9A} {
        u := upper[1];
      } else {
        var i :| 0 <= i < |table(c)| && table(c)[i] as int >= 0x80 && !IsSpace(table(c)[i]);
        u := table(c)[i];
      }
      assert c in [c] && u in upper && !IsIgnored(u);
      if IsBase32(u) { Base32Code(u); }
    }
  }

  predicate LeavesAscii(s: string) { exists i :: 0 <= i < |s| && s[i] as int >= 0x80 && !IsSpace(s[i]) }

  lemma LettersAreBase32(s: string)
    requires forall c :: c in s ==> 'A' <= c <= 'Z'
    ensures IsText(s)
  {
    forall c | c in s ensures IsBase32(c) {
      AlphabetCode(c as int - 65);
      assert ALPHABET[c as int - 65] == c;
    }
  }

  // --- How text may be typed ---

  predicate IsAscii(c: char) { c as int < 0x80 }

  /** White space of ASCII, and `=`. */
  predicate IsSeparator(c: char) {
    c == ' ' || c == '\t' || c == '\n' || c == '\r' || c == '=' || c as int == 11 || c as int == 12
  }

  /** The letter itself, or the lower-case letter 32 above a capital. */
  predicate IsTyped(typed: char, letter: char) {
    typed == letter || ('A' <= letter <= 'Z' && typed as int == letter as int + 32)
  }

  /** `typed` is `text` in either case, with separators put in anywhere. */
  predicate TypedAs(typed: string, text: string) {
    if typed == "" then text == ""
    else
      || (IsSeparator(typed[0]) && TypedAs(typed[1..], text))
      || (text != "" && IsTyped(typed[0], text[0]) && TypedAs(typed[1..], text[1..]))
  }

  lemma AsciiUpper(c: char, table: char -> string)
    requires IsAscii(c)
    ensures Upper(c, table) == [if 'a' <= c <= 'z' then (c as int - 32) as char else c]
    ensures IsIgnored(c) <==> IsSeparator(c)
  {
  }

  lemma Base32Code(c: char)
    requires IsBase32(c)
    ensures 50 <= c as int <= 55 || 65 <= c as int <= 90
  {
    var i :| 0 <= i < |ALPHABET| && ALPHABET[i] == c;
    AlphabetCode(i);
  }

  lemma ReadOne(typed: char, table: char -> string)
    requires IsAscii(typed)
    ensures var read := Stripped(Upper(typed, table));
            if IsSeparator(typed) then read == "" && forall letter :: IsBase32(letter) ==> !IsTyped(typed, letter)
            else |read| == 1 && forall letter :: IsBase32(letter) ==> (IsTyped(typed, letter) <==> read[0] == letter)
  {
    hide Upper, IsIgnored, IsBase32;
    AsciiUpper(typed, table);
    var upper := Upper(typed, table)[0];
    AsciiUpper(upper, table);
    assert Stripped(Upper(typed, table)) == if IsIgnored(upper) then "" else [upper];
    forall letter | IsBase32(letter)
      ensures IsTyped(typed, letter) <==> upper == letter
      ensures IsSeparator(typed) ==> !IsTyped(typed, letter)
    {
      Base32Code(letter);
    }
  }

  /** Among ASCII texts exactly those that spell it, in either case and with separators anywhere, are read as a text. */
  lemma {:induction false} ReadAsIff(typed: string, text: string, table: char -> string)
    requires IsText(text) && forall c :: c in typed ==> IsAscii(c)
    ensures Clean(typed, table) == text <==> TypedAs(typed, text)
  {
    hide Upper, IsBase32, IsTyped, IsSeparator, IsAscii;
    if typed != "" {
      assert typed == [typed[0]] + typed[1..];
      var read, rest := Stripped(Upper(typed[0], table)), typed[1..];
      StrippedJoins(Upper(typed[0], table), Uppered(rest, table));
      assert Clean(typed, table) == read + Clean(rest, table);
      ReadOne(typed[0], table);
      assert text != "" ==> text == [text[0]] + text[1..] && text[0] in text;
      if IsSeparator(typed[0]) {
        ReadAsIff(rest, text, table);
      } else if text != "" {
        ReadAsIff(rest, text[1..], table);
      }
    }
  }

  /** However an encoding is typed, it decodes to the bytes. */
  lemma TypedDecodes(bytes: seq<Byte>, text: string, typed: string, decoded: seq<Byte>, table: char -> string)
    requires IsEncoding(bytes, text) && TypedAs(typed, text)
    requires forall c :: c in typed ==> IsAscii(c)
    ensures IsText(Clean(typed, table))
    ensures IsDecoding(Clean(typed, table), decoded) ==> decoded == bytes
  {
    ReadAsIff(typed, text, table);
    if IsDecoding(text, decoded) { DecodeEncoded(bytes, text, decoded); }
  }
}
