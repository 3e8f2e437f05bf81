/** Lobby identifiers and invite codes. The random source is a parameter:
    a lobby id is the first eight characters of a version-4 UUID's text form,
    and an invite code is six draws from the upper-case-and-digits alphabet. */
module Identifiers {

  const HEX_DIGITS: string := "0123456789abcdef"

  /** The `n` consecutive code points from `first` on. */
  function CharRun(first: char, n: nat): (s: string)
    requires first as int + n <= 0xD800
    ensures |s| == n
    ensures forall i :: 0 <= i < n ==> s[i] as int == first as int + i
  {
    if n == 0 then [] else CharRun(first, n - 1) + [(first as int + n - 1) as char]
  }

  /** `string.ascii_uppercase`. */
  const ASCII_UPPERCASE: string := CharRun('A', 26)

  /** `string.digits`. */
  const DIGITS: string := CharRun('0', 10)

  /** The invite-code alphabet. */
  const INVITE_ALPHABET: string := ASCII_UPPERCASE + DIGITS

  /** Letters first, then digits, each in code-point order. */
  lemma AlphabetLayout()
    ensures |INVITE_ALPHABET| == 36
    ensures forall k :: 0 <= k < 26 ==> INVITE_ALPHABET[k] as int == 'A' as int + k
    ensures forall k :: 26 <= k < 36 ==> INVITE_ALPHABET[k] as int == '0' as int + k - 26
  {
    assert forall k :: 26 <= k < 36 ==> INVITE_ALPHABET[k] == DIGITS[k - 26];
  }

  function Pow16(k: nat): (p: nat)
    ensures p >= 1
  {
    if k == 0 then 1 else 16 * Pow16(k - 1)
  }

  predicate IsHexDigit(c: char) {
    ('0' <= c <= '9') || ('a' <= c <= 'f')
  }

  predicate IsHex(s: string) {
    forall i :: 0 <= i < |s| ==> IsHexDigit(s[i])
  }

  function HexValue(c: char): (v: nat)
    requires IsHexDigit(c)
    ensures v < 16 && HEX_DIGITS[v] == c
  {
    if '0' <= c <= '9' then c as int - '0' as int else c as int - 'a' as int + 10
  }

  /** `n` written with exactly `width` lower-case hex digits, most
      significant first (the `%032x` rendering of a UUID, cut to a width). */
  function HexWidth(n: nat, width: nat): (s: string)
    ensures |s| == width && IsHex(s)
  {
    if width == 0 then [] else HexWidth(n / 16, width - 1) + [HEX_DIGITS[n % 16]]
  }

  /** Reads a hex string back as a number. */
  function ParseHex(s: string): nat
    requires IsHex(s)
  {
    if s == [] then 0 else ParseHex(s[..|s| - 1]) * 16 + HexValue(s[|s| - 1])
  }

  lemma {:induction false} ParseHexBound(s: string)
    requires IsHex(s)
    ensures ParseHex(s) < Pow16(|s|)
    decreases |s|
  {
    if s != [] {
      ParseHexBound(s[..|s| - 1]);
    }
  }

  /** Rendering then reading gives the number back when it fits the width. */
  lemma {:induction false} HexRoundTrip(n: nat, width: nat)
    requires n < Pow16(width)
    ensures ParseHex(HexWidth(n, width)) == n
    decreases width
  {
    if width > 0 {
      var s := HexWidth(n, width);
      assert s[..|s| - 1] == HexWidth(n / 16, width - 1);
      HexRoundTrip(n / 16, width - 1);
    }
  }

  /** Reading then rendering gives the string back. */
  lemma {:induction false} HexParseRoundTrip(s: string)
    requires IsHex(s)
    ensures HexWidth(ParseHex(s), |s|) == s
    decreases |s|
  {
    if s != [] {
      var init := s[..|s| - 1];
      var n := ParseHex(s);
      assert n / 16 == ParseHex(init);
      assert n % 16 == HexValue(s[|s| - 1]);
      HexParseRoundTrip(init);
      assert s == init + [s[|s| - 1]];
    }
  }

  const UUID_SPACE: nat := 0x1_0000_0000_0000_0000_0000_0000_0000_0000
  const TOP_32_BITS: nat := 0x1_0000_0000_0000_0000_0000_0000

  /** The 128-bit value of a UUID. */
  type Uuid = n: nat | n < UUID_SPACE

  /** `str(uuid.uuid4())[:8]` for the UUID whose 128-bit value is `uuid`: the
      text form starts with the 32 most significant bits in hex, which the
      version and variant bits of a version-4 UUID do not touch. */
  function LobbyIdOf(uuid: nat): (id: string)
    requires uuid < UUID_SPACE
    ensures |id| == 8 && IsHex(id)
    ensures ParseHex(id) == uuid / TOP_32_BITS
  {
    assert Pow16(8) == 0x1_0000_0000;
    HexRoundTrip(uuid / TOP_32_BITS, 8);
    HexWidth(uuid / TOP_32_BITS, 8)
  }

  /** Every eight-character lower-case hex string is the id of some UUID. */
  lemma EveryHexIdIsReachable(id: string)
    requires |id| == 8 && IsHex(id)
    ensures exists uuid: nat :: uuid < UUID_SPACE && LobbyIdOf(uuid) == id
  {
    ParseHexBound(id);
    assert Pow16(8) == 0x1_0000_0000;
    var uuid := ParseHex(id) * TOP_32_BITS;
    assert uuid / TOP_32_BITS == ParseHex(id);
    HexParseRoundTrip(id);
    assert LobbyIdOf(uuid) == id;
  }

  predicate IsInviteChar(c: char) {
    ('A' <= c <= 'Z') || ('0' <= c <= '9')
  }

  /** `''.join(random.choices(alphabet, k=6))` where `draws` are the six
      indices the random source picked. */
  function InviteCodeOf(draws: seq<nat>): (code: string)
    requires |draws| == 6
    requires forall i :: 0 <= i < 6 ==> draws[i] < |INVITE_ALPHABET|
    ensures |code| == 6
    ensures forall i :: 0 <= i < 6 ==> IsInviteChar(code[i])
    ensures forall i :: 0 <= i < 6 ==> code[i] == INVITE_ALPHABET[draws[i]]
  {
    AlphabetLayout();
    seq(6, i requires 0 <= i < 6 => INVITE_ALPHABET[draws[i]])
  }

  function InviteIndex(c: char): (k: nat)
    requires IsInviteChar(c)
    ensures k < |INVITE_ALPHABET| && INVITE_ALPHABET[k] == c
  {
    AlphabetLayout();
    if 'A' <= c <= 'Z' then c as int - 'A' as int else c as int - '0' as int + 26
  }

  /** Every code of six upper-case letters and digits can be drawn, and the
      draws that produce it are determined by the code. */
  lemma InviteCodesAreExactlyTheValidCodes(code: string)
    requires |code| == 6 && forall i :: 0 <= i < 6 ==> IsInviteChar(code[i])
    ensures var draws := seq(6, i requires 0 <= i < 6 => InviteIndex(code[i]));
            InviteCodeOf(draws) == code
  {
  }

  lemma InviteIndexInverts(k: nat)
    requires k < |INVITE_ALPHABET|
    ensures IsInviteChar(INVITE_ALPHABET[k]) && InviteIndex(INVITE_ALPHABET[k]) == k
  {
  }

  lemma InviteDrawsAreUnique(d1: seq<nat>, d2: seq<nat>)
    requires |d1| == 6 && forall i :: 0 <= i < 6 ==> d1[i] < |INVITE_ALPHABET|
    requires |d2| == 6 && forall i :: 0 <= i < 6 ==> d2[i] < |INVITE_ALPHABET|
    requires InviteCodeOf(d1) == InviteCodeOf(d2)
    ensures d1 == d2
  {
    forall i | 0 <= i < 6
      ensures d1[i] == d2[i]
    {
      assert INVITE_ALPHABET[d1[i]] == InviteCodeOf(d1)[i] == INVITE_ALPHABET[d2[i]];
      InviteIndexInverts(d1[i]);
      InviteIndexInverts(d2[i]);
    }
  }
}
