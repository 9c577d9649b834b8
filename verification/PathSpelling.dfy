/** What percent decoding means: a text decodes to another exactly when it spells it, each
    character bare or as the escaped bytes of its UTF-8 encoding (section 2.1 of RFC 3986). */
module PathSpelling {
  import opened Common
  import opened PathSegment

  /** How a character is written: as it is, or escaped, each digit in either case. */
  datatype Spelling = Bare | Escaped(upper: nat -> bool)

  function HexDigit(n: nat, upper: bool): char
    requires n < 16
  {
    if upper then "0123456789ABCDEF"[n] else "0123456789abcdef"[n]
  }

  function EscapeByte(b: Byte, high: bool, low: bool): (r: string)
    ensures |r| == 3
  {
    ['%', HexDigit(b / 16, high), HexDigit(b % 16, low)]
  }

  /** The bytes as escapes; `k` of the same character are written already. */
  function EscapeBytes(bytes: seq<Byte>, upper: nat -> bool, k: nat): string {
    if bytes == [] then ""
    else EscapeByte(bytes[0], upper(2 * k), upper(2 * k + 1)) + EscapeBytes(bytes[1..], upper, k + 1)
  }

  function SpellOne(c: char, how: Spelling): string {
    match how
    case Bare => [c]
    case Escaped(upper) => EscapeBytes(Utf8(c), upper, 0)
  }

  function Spell(s: string, hows: seq<Spelling>): string
    requires |s| == |hows|
  {
    if s == "" then "" else SpellOne(s[0], hows[0]) + Spell(s[1..], hows[1..])
  }

  /** Any character may be left bare but the percent sign. */
  predicate Readable(s: string, hows: seq<Spelling>) {
    |s| == |hows| && forall i :: 0 <= i < |s| && hows[i].Bare? ==> s[i] != '%'
  }

  ghost predicate Spells(text: string, s: string) {
    exists hows :: Readable(s, hows) && Spell(s, hows) == text
  }

  // ---------- Digits and bytes ----------

  lemma {:induction false} DigitRead(n: nat, upper: bool)
    requires n < 16
    ensures var c := HexDigit(n, upper); IsHex(c) && HexValue(c) == n
  {
    if n < 10 {
      assert HexDigit(n, upper) == "0123456789"[n];
    }
  }

  lemma {:induction false} DigitSpelt(c: char)
    requires IsHex(c)
    ensures HexDigit(HexValue(c), 'A' <= c <= 'F') == c
  {
    var n := HexValue(c);
    if IsDigit(c) {
      assert HexDigit(n, false) == "0123456789"[n];
    }
  }

  lemma {:induction false} BytesLength(bytes: seq<Byte>, upper: nat -> bool, k: nat)
    ensures |EscapeBytes(bytes, upper, k)| == 3 * |bytes|
  {
    if bytes != [] {
      BytesLength(bytes[1..], upper, k + 1);
    }
  }

  lemma {:induction false} ByteRead(b: Byte, high: bool, low: bool, rest: string)
    ensures var t := EscapeByte(b, high, low) + rest; EscapeAt(t, 0) && ByteAt(t, 0) == b
  {
    DigitRead(b / 16, high);
    DigitRead(b % 16, low);
  }

  lemma {:induction false} FrontFirst(a: string, b: string, c: string)
    ensures (a + b) + c == a + (b + c)
  {
  }

  lemma {:induction false} BytesRead(bytes: seq<Byte>, upper: nat -> bool, k: nat, rest: string, j: nat)
    requires j < |bytes|
    ensures var t := EscapeBytes(bytes, upper, k) + rest; EscapeAt(t, 3 * j) && ByteAt(t, 3 * j) == bytes[j]
  {
    hide EscapeByte, EscapeAt, ByteAt;
    var high, low := upper(2 * k), upper(2 * k + 1);
    var tail := EscapeBytes(bytes[1..], upper, k + 1);
    FrontFirst(EscapeByte(bytes[0], high, low), tail, rest);
    if j == 0 {
      ByteRead(bytes[0], high, low, tail + rest);
    } else {
      BytesRead(bytes[1..], upper, k + 1, rest, j - 1);
      ByteShifts(EscapeByte(bytes[0], high, low), tail + rest, 3 * (j - 1));
    }
  }

  lemma {:induction false} ByteShifts(head: string, t: string, i: nat)
    requires |head| == 3 && EscapeAt(t, i)
    ensures EscapeAt(head + t, i + 3) && ByteAt(head + t, i + 3) == ByteAt(t, i)
  {
  }

  // ---------- Decoding reads what was spelt ----------

  predicate Holds(t: string, j: nat, b: Byte) {
    EscapeAt(t, 3 * j) && ByteAt(t, 3 * j) == b
  }

  lemma {:induction false} Quotients(n: nat)
    ensures n / 0x1000 == n / 0x40 / 0x40 && n / 0x4_0000 == n / 0x1000 / 0x40
    ensures n == n / 0x40 * 0x40 + n % 0x40
    ensures n / 0x40 == n / 0x1000 * 0x40 + n / 0x40 % 0x40
    ensures n / 0x1000 == n / 0x4_0000 * 0x40 + n / 0x1000 % 0x40
  {
  }

  lemma {:induction false} TwoRead(t: string, c: char)
    requires 0x80 <= c as int < 0x800
    requires Holds(t, 0, Utf8(c)[0]) && Holds(t, 1, Utf8(c)[1])
    ensures DecodeHead(t) == Some(Decoded(c, 6))
  {
    Quotients(c as int);
  }

  lemma {:induction false} ThreeRead(t: string, c: char)
    requires 0x800 <= c as int < 0x1_0000
    requires Holds(t, 0, Utf8(c)[0]) && Holds(t, 1, Utf8(c)[1]) && Holds(t, 2, Utf8(c)[2])
    ensures DecodeHead(t) == Some(Decoded(c, 9))
  {
    Quotients(c as int);
  }

  lemma {:induction false} FourRead(t: string, c: char)
    requires 0x1_0000 <= c as int
    requires Holds(t, 0, Utf8(c)[0]) && Holds(t, 1, Utf8(c)[1]) && Holds(t, 2, Utf8(c)[2]) && Holds(t, 3, Utf8(c)[3])
    ensures DecodeHead(t) == Some(Decoded(c, 12))
  {
    Quotients(c as int);
  }

  lemma {:induction false} HeadRead(c: char, upper: nat -> bool, rest: string)
    ensures var bytes := Utf8(c);
      DecodeHead(EscapeBytes(bytes, upper, 0) + rest) == Some(Decoded(c, 3 * |bytes|))
  {
    var bytes := Utf8(c);
    var t := EscapeBytes(bytes, upper, 0) + rest;
    forall j | 0 <= j < |bytes| ensures Holds(t, j, bytes[j]) {
      BytesRead(bytes, upper, 0, rest, j);
    }
    CharacterRead(t, c);
  }

  lemma {:induction false} CharacterRead(t: string, c: char)
    requires forall j :: 0 <= j < |Utf8(c)| ==> Holds(t, j, Utf8(c)[j])
    ensures DecodeHead(t) == Some(Decoded(c, 3 * |Utf8(c)|))
  {
    var n := c as int;
    assert Holds(t, 0, Utf8(c)[0]);
    if 0x80 <= n < 0x800 {
      TwoRead(t, c);
    } else if 0x800 <= n < 0x1_0000 {
      ThreeRead(t, c);
    } else if 0x1_0000 <= n {
      FourRead(t, c);
    }
  }

  lemma {:induction false} BareRead(c: char, rest: string)
    requires c != '%'
    ensures Decode([c] + rest) == Prepend(c, Decode(rest))
  {
    var t := [c] + rest;
    assert t[0] == c && t[1..] == rest;
  }

  lemma {:induction false} EscapedRead(c: char, upper: nat -> bool, rest: string)
    ensures Decode(EscapeBytes(Utf8(c), upper, 0) + rest) == Prepend(c, Decode(rest))
  {
    var bytes := Utf8(c);
    var front := EscapeBytes(bytes, upper, 0);
    var t := front + rest;
    HeadRead(c, upper, rest);
    BytesLength(bytes, upper, 0);
    BytesRead(bytes, upper, 0, rest, 0);
    assert t[|front|..] == rest;
    assert t[0] == '%';
  }

  lemma {:induction false} SpeltIsRead(s: string, hows: seq<Spelling>)
    requires Readable(s, hows)
    ensures Decode(Spell(s, hows)) == Some(s)
  {
    if s != "" {
      hide Decode;
      SpeltIsRead(s[1..], hows[1..]);
      var rest := Spell(s[1..], hows[1..]);
      match hows[0] {
        case Bare => BareRead(s[0], rest);
        case Escaped(upper) => EscapedRead(s[0], upper, rest);
      }
      assert s == [s[0]] + s[1..];
    } else {
      assert Spell(s, hows) == "";
    }
  }

  // ---------- What is read was spelt ----------

  /** The cases of the digits of the escapes at the front. */
  function CasesIn(t: string): nat -> bool {
    (k: nat) => var at: nat := 3 * (k / 2) + 1 + k % 2; at < |t| && 'A' <= t[at] <= 'F'
  }

  lemma {:induction false} ByteSpelt(t: string, k: nat, b: Byte)
    requires Holds(t, k, b)
    ensures var cases := CasesIn(t);
      3 * k + 3 <= |t| && EscapeByte(b, cases(2 * k), cases(2 * k + 1)) == t[3 * k..3 * k + 3]
  {
    var cases := CasesIn(t);
    DigitSpelt(t[3 * k + 1]);
    DigitSpelt(t[3 * k + 2]);
    assert b / 16 == HexValue(t[3 * k + 1]) && b % 16 == HexValue(t[3 * k + 2]);
    assert (2 * k) / 2 == k && (2 * k) % 2 == 0 && (2 * k + 1) / 2 == k && (2 * k + 1) % 2 == 1;
  }

  lemma {:induction false} Sliced(t: string, i: nat, j: nat, k: nat)
    requires i <= j <= k <= |t|
    ensures t[i..k] == t[i..j] + t[j..k]
  {
  }

  lemma {:induction false} BytesStep(bytes: seq<Byte>, upper: nat -> bool, k: nat)
    requires bytes != []
    ensures EscapeBytes(bytes, upper, k)
         == EscapeByte(bytes[0], upper(2 * k), upper(2 * k + 1)) + EscapeBytes(bytes[1..], upper, k + 1)
  {
  }

  lemma {:induction false} BytesSpelt(t: string, bytes: seq<Byte>, k: nat)
    requires 3 * (k + |bytes|) <= |t| && forall j :: 0 <= j < |bytes| ==> Holds(t, k + j, bytes[j])
    ensures EscapeBytes(bytes, CasesIn(t), k) == t[3 * k..3 * (k + |bytes|)]
    decreases |bytes|
  {
    if bytes != [] {
      hide *;
      assert Holds(t, k + 0, bytes[0]);
      ByteSpelt(t, k, bytes[0]);
      HoldRest(t, bytes, k);
      BytesSpelt(t, bytes[1..], k + 1);
      BytesStep(bytes, CasesIn(t), k);
      Sliced(t, 3 * k, 3 * k + 3, 3 * (k + |bytes|));
    }
  }

  lemma {:induction false} HoldRest(t: string, bytes: seq<Byte>, k: nat)
    requires bytes != [] && forall j :: 0 <= j < |bytes| ==> Holds(t, k + j, bytes[j])
    ensures forall j :: 0 <= j < |bytes[1..]| ==> Holds(t, k + 1 + j, bytes[1..][j])
  {
    forall j | 0 <= j < |bytes[1..]| ensures Holds(t, k + 1 + j, bytes[1..][j]) {
      assert Holds(t, k + (j + 1), bytes[j + 1]);
    }
  }

  lemma {:induction false} HeadSpelt(t: string)
    requires DecodeHead(t).Some?
    ensures var head := DecodeHead(t).value;
      head.length == 3 * |Utf8(head.c)| && EscapeBytes(Utf8(head.c), CasesIn(t), 0) == t[..head.length]
  {
    var bytes := Utf8(DecodeHead(t).value.c);
    BytesAtHead(t);
    BytesSpelt(t, bytes, 0);
    assert t[..3 * |bytes|] == t[0..3 * |bytes|];
  }

  lemma {:induction false} Digits64(a: nat, x: nat, y: nat, z: nat)
    requires x < 64 && y < 64 && z < 64
    ensures (a * 0x40 + x) / 0x40 == a && (a * 0x40 + x) % 0x40 == x
    ensures var n := (a * 0x40 + x) * 0x40 + y; n / 0x1000 == a && n / 0x40 % 0x40 == x && n % 0x40 == y
    ensures var n := ((a * 0x40 + x) * 0x40 + y) * 0x40 + z;
      n / 0x4_0000 == a && n / 0x1000 % 0x40 == x && n / 0x40 % 0x40 == y && n % 0x40 == z
  {
  }

  /** These are the bytes of the character, each escaped. */
  predicate IsHead(t: string, head: Decoded) {
    head.length == 3 * |Utf8(head.c)| && forall j :: 0 <= j < |Utf8(head.c)| ==> Holds(t, j, Utf8(head.c)[j])
  }

  lemma {:induction false} OneAtHead(t: string, b: nat)
    requires b < 0x80 && Holds(t, 0, b)
    ensures IsHead(t, Decoded(b as char, 3))
  {
  }

  lemma {:induction false} TwoAtHead(t: string, a: nat, x: nat)
    requires 2 <= a < 0x20 && x < 0x40 && Holds(t, 0, 0xC0 + a) && Holds(t, 1, 0x80 + x)
    ensures IsHead(t, Decoded((a * 0x40 + x) as char, 6))
  {
    Digits64(a, x, 0, 0);
  }

  lemma {:induction false} ThreeAtHead(t: string, a: nat, x: nat, y: nat)
    requires a < 0x10 && x < 0x40 && y < 0x40
    requires Holds(t, 0, 0xE0 + a) && Holds(t, 1, 0x80 + x) && Holds(t, 2, 0x80 + y)
    requires var code := (a * 0x40 + x) * 0x40 + y; 0x800 <= code && !(0xD800 <= code < 0xE000)
    ensures IsHead(t, Decoded(((a * 0x40 + x) * 0x40 + y) as char, 9))
  {
    Digits64(a, x, y, 0);
  }

  lemma {:induction false} FourAtHead(t: string, a: nat, x: nat, y: nat, z: nat)
    requires a < 5 && x < 0x40 && y < 0x40 && z < 0x40
    requires Holds(t, 0, 0xF0 + a) && Holds(t, 1, 0x80 + x) && Holds(t, 2, 0x80 + y) && Holds(t, 3, 0x80 + z)
    requires var code := ((a * 0x40 + x) * 0x40 + y) * 0x40 + z; 0x1_0000 <= code < 0x11_0000
    ensures IsHead(t, Decoded((((a * 0x40 + x) * 0x40 + y) * 0x40 + z) as char, 12))
  {
    Digits64(a, x, y, z);
  }

  function Payload(t: string, j: nat): nat {
    if ContinuationAt(t, 3 * j).Some? then ContinuationAt(t, 3 * j).value else 0
  }

  /** The escapes at the front are just the bytes of the character they spell. */
  lemma {:induction false} BytesAtHead(t: string)
    requires DecodeHead(t).Some?
    ensures IsHead(t, DecodeHead(t).value)
  {
    hide IsHead;
    var b := ByteAt(t, 0);
    var x, y, z := Payload(t, 1), Payload(t, 2), Payload(t, 3);
    if b < 0x80 {
      OneAtHead(t, b);
    } else if b < 0xE0 {
      TwoAtHead(t, b - 0xC0, x);
    } else if b < 0xF0 {
      ThreeAtHead(t, b - 0xE0, x, y);
    } else {
      FourAtHead(t, b - 0xF0, x, y, z);
    }
  }

  lemma {:induction false} ReadIsSpelt(t: string) returns (hows: seq<Spelling>)
    requires Decode(t).Some?
    ensures Readable(Decode(t).value, hows) && Spell(Decode(t).value, hows) == t
  {
    if t == "" {
      hows := [];
    } else if t[0] != '%' {
      var rest := ReadIsSpelt(t[1..]);
      hows := [Bare] + rest;
      assert t == [t[0]] + t[1..];
    } else {
      var head := DecodeHead(t).value;
      var rest := ReadIsSpelt(t[head.length..]);
      HeadSpelt(t);
      hows := [Escaped(CasesIn(t))] + rest;
      assert t == t[..head.length] + t[head.length..];
    }
  }

  /** Decoding gives a text exactly when it is spelt, and fails exactly when nothing is. */
  lemma {:induction false} DecodeMeans(t: string)
    ensures forall s :: Decode(t) == Some(s) <==> Spells(t, s)
  {
    forall s ensures Decode(t) == Some(s) <==> Spells(t, s) {
      if Decode(t) == Some(s) {
        var hows := ReadIsSpelt(t);
      }
      if Spells(t, s) {
        var hows :| Readable(s, hows) && Spell(s, hows) == t;
        SpeltIsRead(s, hows);
      }
    }
  }

  // ---------- What the check refuses and accepts ----------

  /** The text spells a text that spells a text, and so on `n` times, down to `s`. */
  ghost predicate SpellsTimes(t: string, s: string, n: nat)
    decreases n
  {
    if n == 0 then t == s else exists u :: Spells(u, s) && SpellsTimes(t, u, n - 1)
  }

  lemma {:induction false} TimesIterated(t: string, s: string, n: nat)
    ensures SpellsTimes(t, s, n) <==> Iterate(t, n) == Some(s)
    decreases n
  {
    if n > 0 {
      if SpellsTimes(t, s, n) {
        var u :| Spells(u, s) && SpellsTimes(t, u, n - 1);
        TimesIterated(t, u, n - 1);
        DecodeMeans(u);
      }
      if Iterate(t, n) == Some(s) {
        var u := Iterate(t, n - 1).value;
        TimesIterated(t, u, n - 1);
        DecodeMeans(u);
      }
    }
  }

  /** Once settled, decoding further changes nothing. */
  lemma {:induction false} SettledStays(t: string, m: nat, n: nat)
    requires m <= n && SettlesAt(t, m) && Iterate(t, n).Some?
    ensures Iterate(t, n) == Iterate(t, m)
  {
    if m < n {
      SettledStays(t, m, n - 1);
      EscapeFreeIsFixed(Iterate(t, n - 1).value);
    }
  }

  /** Every spelling, however deep, of two dots or of a text with a slash, a backslash, a space or a
      control character is refused. */
  lemma {:induction false} HarmIsRefused(t: string, s: string, n: nat)
    requires SpellsTimes(t, s, n)
    requires s == ".." || exists c <- s :: c == '/' || c == '\\' || c <= ' ' || c == '\U{7f}'
    ensures !SafeSegment(t)
  {
    TimesIterated(t, s, n);
    if SafeSegment(t) {
      var m :| 0 <= m <= 7 && SettlesAt(t, m);
      assert !Harmless(s) by {
        if s != ".." {
          var c :| c in s && (c == '/' || c == '\\' || c <= ' ' || c == '\U{7f}');
          assert BadCharacter(c);
        }
      }
      if m <= n {
        SettledStays(t, m, n);
      } else {
        HarmLasts(t, n, m);
      }
    }
  }

  /** Every spelling, up to seven deep, of any other text without a percent sign is accepted. */
  lemma {:induction false} HarmlessIsAccepted(t: string, s: string, n: nat)
    requires n <= 7 && SpellsTimes(t, s, n) && '%' !in s
    requires s != ".." && forall c <- s :: c != '/' && c != '\\' && c > ' ' && c != '\U{7f}'
    ensures SafeSegment(t)
  {
    TimesIterated(t, s, n);
    assert SettlesAt(t, n);
    if n == 0 {
      assert RawWellFormed(t);
    } else {
      assert Iterate(t, 1).Some? by {
        if Iterate(t, 1).None? {
          FailureLasts(t, 1, n);
        }
      }
      assert Iterate(t, 0) == Some(t);
      DecodedIsWellFormed(t);
    }
  }

  /** In a text that can be decoded every percent sign begins an escape. */
  lemma {:induction false} DecodedIsWellFormed(t: string)
    requires Decode(t).Some?
    ensures RawWellFormed(t)
  {
    if t != "" {
      if t[0] != '%' {
        DecodedIsWellFormed(t[1..]);
        forall i | 0 <= i < |t| && t[i] == '%' ensures EscapeAt(t, i) {
          EscapeShifts(t, 1, i - 1);
        }
      } else {
        var n := DecodeHead(t).value.length;
        DecodedIsWellFormed(t[n..]);
        BytesAtHead(t);
        HeadIsWellFormed(t, DecodeHead(t).value);
        forall i | 0 <= i < |t| && t[i] == '%' ensures EscapeAt(t, i) {
          if i >= n {
            EscapeShifts(t, n, i - n);
          }
        }
      }
    }
  }

  lemma {:induction false} HeadIsWellFormed(t: string, head: Decoded)
    requires IsHead(t, head)
    ensures forall i :: 0 <= i < head.length && i < |t| && t[i] == '%' ==> EscapeAt(t, i)
  {
    forall i | 0 <= i < head.length && i < |t| && t[i] == '%' ensures EscapeAt(t, i) {
      assert Holds(t, i / 3, Utf8(head.c)[i / 3]);
      assert i == 3 * (i / 3) + i % 3;
    }
  }
}
