/** The text a client sends, as the service cleans and checks it before anything else. */
module MessageText {
  import opened Sequences

  const MAX_BYTES: nat := 8000

  /** White space as Go's unicode package has it. */
  predicate IsSpace(c: char) {
    || '\t' <= c <= '\r' || c == ' ' || c == '\U{85}' || c == '\U{A0}' || c == '\U{1680}'
    || '\U{2000}' <= c <= '\U{200A}' || c == '\U{2028}' || c == '\U{2029}' || c == '\U{202F}'
    || c == '\U{205F}' || c == '\U{3000}'
  }

  /** The same, one by one. */
  lemma SpacesAre(c: char)
    ensures IsSpace(c) <==> c in {'\t', '\n', '\U{B}', '\U{C}', '\r', ' ', '\U{85}', '\U{A0}', '\U{1680}',
                                  '\U{2000}', '\U{2001}', '\U{2002}', '\U{2003}', '\U{2004}', '\U{2005}',
                                  '\U{2006}', '\U{2007}', '\U{2008}', '\U{2009}', '\U{200A}', '\U{2028}',
                                  '\U{2029}', '\U{202F}', '\U{205F}', '\U{3000}'}
  {
  }

  function TrimLeft(s: string): string {
    if s != "" && IsSpace(s[0]) then TrimLeft(s[1..]) else s
  }

  function TrimRight(s: string): string {
    if s != "" && IsSpace(s[|s| - 1]) then TrimRight(s[..|s| - 1]) else s
  }

  function TrimSpace(s: string): string { TrimRight(TrimLeft(s)) }

  /** Bytes of a character in UTF-8 (section 3 of RFC 3629). */
  function Bytes(c: char): nat {
    if c < '\U{80}' then 1 else if c < '\U{800}' then 2 else if c < '\U{10000}' then 3 else 4
  }

  function ByteLength(s: string): nat {
    if s == "" then 0 else Bytes(s[0]) + ByteLength(s[1..])
  }

  /** The encoding of a character in UTF-8. */
  function Utf8(c: char): seq<nat> {
    var n := c as int;
    var m := n / 0x40;
    var k := m / 0x40;
    if n < 0x80 then [n]
    else if n < 0x800 then [0xC0 + m, 0x80 + n % 0x40]
    else if n < 0x10000 then [0xE0 + k, 0x80 + m % 0x40, 0x80 + n % 0x40]
    else [0xF0 + k / 0x40, 0x80 + k % 0x40, 0x80 + m % 0x40, 0x80 + n % 0x40]
  }

  function EncodeUtf8(s: string): seq<nat> {
    if s == "" then [] else Utf8(s[0]) + EncodeUtf8(s[1..])
  }

  /** The number a UTF-8 sequence stands for, read off the bits its bytes carry. */
  function ReadUtf8(b: seq<nat>): nat
    requires 1 <= |b| <= 4
  {
    if |b| == 1 then b[0]
    else if |b| == 2 then b[0] % 0x20 * 0x40 + b[1] % 0x40
    else if |b| == 3 then (b[0] % 0x10 * 0x40 + b[1] % 0x40) * 0x40 + b[2] % 0x40
    else ((b[0] % 0x8 * 0x40 + b[1] % 0x40) * 0x40 + b[2] % 0x40) * 0x40 + b[3] % 0x40
  }

  lemma SixBits(n: nat)
    ensures n == n / 0x40 * 0x40 + n % 0x40 && (0x80 + n % 0x40) % 0x40 == n % 0x40
  {
  }

  lemma LeadBits(n: nat)
    ensures n < 0x20 ==> (0xC0 + n) % 0x20 == n
    ensures n < 0x10 ==> (0xE0 + n) % 0x10 == n
    ensures n < 0x8 ==> (0xF0 + n) % 0x8 == n
  {
  }

  /** A number of four groups of bits, put together again. */
  lemma FourGroups(n: nat)
    ensures var m := n / 0x40; var k := m / 0x40;
            n == ((k / 0x40 * 0x40 + k % 0x40) * 0x40 + m % 0x40) * 0x40 + n % 0x40
  {
  }

  lemma ShortRoundTrip(c: char)
    requires c as int < 0x10000
    ensures ReadUtf8(Utf8(c)) == c as int
  {
    var n := c as int;
    SixBits(n);
    SixBits(n / 0x40);
    if 0x80 <= n < 0x800 {
      LeadBits(n / 0x40);
    } else {
      LeadBits(n / 0x40 / 0x40);
    }
  }

  lemma LongRoundTrip(c: char)
    requires c as int >= 0x10000
    ensures ReadUtf8(Utf8(c)) == c as int
  {
    var n := c as int;
    var m := n / 0x40;
    var k := m / 0x40;
    var b := Utf8(c);
    SixBits(n);
    SixBits(m);
    SixBits(k);
    LeadBits(k / 0x40);
    FourGroups(n);
    assert b[0] % 0x8 == k / 0x40 && b[1] % 0x40 == k % 0x40 && b[2] % 0x40 == m % 0x40;
  }

  /** Every character is encoded in one to four bytes from which it can be read again. */
  lemma Utf8RoundTrip(c: char)
    ensures 1 <= |Utf8(c)| <= 4 && ReadUtf8(Utf8(c)) == c as int
    ensures forall i :: 0 <= i < |Utf8(c)| ==> Utf8(c)[i] < 0x100
  {
    if c as int < 0x10000 {
      ShortRoundTrip(c);
    } else {
      LongRoundTrip(c);
    }
  }

  /** The length the service limits is that of the encoded text. */
  lemma {:induction false} ByteLengthIs(s: string)
    ensures ByteLength(s) == |EncodeUtf8(s)|
  {
    if s != "" {
      ByteLengthIs(s[1..]);
    }
  }

  predicate Spaces(s: string) {
    forall i :: 0 <= i < |s| ==> IsSpace(s[i])
  }

  predicate Trimmed(s: string) {
    s != "" ==> !IsSpace(s[0]) && !IsSpace(s[|s| - 1])
  }

  /** What the service accepts and hands to the writer. */
  predicate Acceptable(text: string) {
    Trimmed(text) && text != "" && ByteLength(text) <= MAX_BYTES
  }

  lemma {:induction false} TrimLeftSpec(s: string)
    ensures var r := TrimLeft(s);
            && |r| <= |s| && r == s[|s| - |r|..] && Spaces(s[..|s| - |r|])
            && (r != "" ==> !IsSpace(r[0]))
  {
    if s != "" && IsSpace(s[0]) {
      TrimLeftSpec(s[1..]);
      var n := |s| - |TrimLeft(s)|;
      assert s[..n] == [s[0]] + s[1..][..n - 1];
    }
  }

  lemma {:induction false} TrimRightSpec(s: string)
    ensures var r := TrimRight(s);
            && |r| <= |s| && r == s[..|r|] && Spaces(s[|r|..])
            && (r != "" ==> !IsSpace(r[|r| - 1]))
  {
    if s != "" && IsSpace(s[|s| - 1]) {
      var n := |s| - 1;
      TrimRightSpec(s[..n]);
      var r := TrimRight(s);
      assert s[|r|..] == s[..n][|r|..] + [s[n]];
    }
  }

  /** What is left after cutting a front off `s` and then a back off the rest. */
  lemma CutEnds(s: string, mid: string, core: string)
    requires |core| <= |mid| <= |s| && mid == s[|s| - |mid|..] && core == mid[..|core|]
    ensures s == s[..|s| - |mid|] + core + mid[|core|..]
  {
    var left, right := s[..|s| - |mid|], mid[|core|..];
    assert mid == core + right;
    Reassociate(left, core, right);
  }

  /** Trimming cuts white space off both ends, all of it and nothing else. */
  lemma TrimSpaceSpec(s: string) returns (left: string, right: string)
    ensures s == left + TrimSpace(s) + right && Spaces(left) && Spaces(right)
    ensures Trimmed(TrimSpace(s))
  {
    var mid := TrimLeft(s);
    var core := TrimRight(mid);
    TrimLeftSpec(s);
    TrimRightSpec(mid);
    CutEnds(s, mid, core);
    left, right := s[..|s| - |mid|], mid[|core|..];
    assert core != "" ==> core[0] == mid[0];
  }
}
