/** Percent-encoding, Retry-After arithmetic, GUID syntax and the bounded
    response buffer of main/protocol.c. */
module Protocol {
  import opened Common

  const SIZE_LIMIT := 0xFFFF_FFFF
  const UINT_LIMIT := 0xFFFF_FFFF
  const MAX_RETRY_AFTER := 86400

  predicate IsDigit(c: byte) {
    '0' as int <= c <= '9' as int
  }

  predicate IsAlnum(c: byte) {
    || 'a' as int <= c <= 'z' as int
    || 'A' as int <= c <= 'Z' as int
    || IsDigit(c)
  }

  /** Section 2.3 of RFC 3986. */
  predicate IsUnreserved(c: byte) {
    IsAlnum(c) || c == '-' as int || c == '.' as int || c == '_' as int || c == '~' as int
  }

  predicate IsHex(c: byte) {
    || IsDigit(c)
    || 'a' as int <= c <= 'f' as int
    || 'A' as int <= c <= 'F' as int
  }

  predicate IsDashIndex(i: nat) {
    i == 8 || i == 13 || i == 18 || i == 23
  }

  predicate GuidValid(value: CString) {
    && |value| == 36
    && forall i: nat | i < 36 :: if IsDashIndex(i) then value[i] == '-' as int else IsHex(value[i])
  }

  /** `n` of the digits 0 to 9, A to F and a to f, by their codes. */
  ghost predicate HexGroup(s: seq<byte>, n: nat) {
    |s| == n && forall c | c in s :: 48 <= c <= 57 || 65 <= c <= 70 || 97 <= c <= 102
  }

  ghost predicate FiveGroups(value: seq<byte>, a: seq<byte>, b: seq<byte>, c: seq<byte>, d: seq<byte>, e: seq<byte>) {
    && HexGroup(a, 8) && HexGroup(b, 4) && HexGroup(c, 4) && HexGroup(d, 4) && HexGroup(e, 12)
    && value == a + [45] + b + [45] + c + [45] + d + [45] + e
  }

  /** Groups of 8, 4, 4, 4 and 12 hexadecimal digits with dashes between them. */
  ghost predicate IsGuid(value: seq<byte>) {
    exists a: seq<byte>, b: seq<byte>, c: seq<byte>, d: seq<byte>, e: seq<byte> :: FiveGroups(value, a, b, c, d, e)
  }

  lemma GroupAt(value: CString, from: nat, n: nat)
    requires GuidValid(value) && from + n <= 36
    requires forall i: nat | from <= i < from + n :: !IsDashIndex(i)
    ensures HexGroup(value[from..from + n], n)
  {
    var group := value[from..from + n];
    forall c | c in group
      ensures 48 <= c <= 57 || 65 <= c <= 70 || 97 <= c <= 102
    {
      var i: nat :| from <= i < from + n && value[i] == c;
    }
  }

  lemma GuidSplits(value: CString)
    requires GuidValid(value)
    ensures IsGuid(value)
  {
    GroupAt(value, 0, 8);
    GroupAt(value, 9, 4);
    GroupAt(value, 14, 4);
    GroupAt(value, 19, 4);
    GroupAt(value, 24, 12);
    var a, b, c, d, e := value[0..8], value[9..13], value[14..18], value[19..23], value[24..36];
    assert value[8] == 45 && value[13] == 45 && value[18] == 45 && value[23] == 45;
    assert value == a + [45] + b + [45] + c + [45] + d + [45] + e;
    assert FiveGroups(value, a, b, c, d, e);
  }

  /** Which group byte `i` of a GUID belongs to. */
  lemma GuidByte(value: CString, i: nat)
    requires IsGuid(value) && i < 36
    ensures |value| == 36
    ensures if IsDashIndex(i) then value[i] == 45 else IsHex(value[i])
  {
    var a: seq<byte>, b: seq<byte>, c: seq<byte>, d: seq<byte>, e: seq<byte> :| FiveGroups(value, a, b, c, d, e);
    var x :=
      if i < 8 then a[i] else if i == 8 then 45 else if i < 13 then b[i - 9] else if i == 13 then 45
      else if i < 18 then c[i - 14] else if i == 18 then 45 else if i < 23 then d[i - 19] else if i == 23 then 45
      else e[i - 24];
    assert value[i] == x;
    assert !IsDashIndex(i) ==> x in a || x in b || x in c || x in d || x in e;
  }

  /** `guid_valid` accepts exactly the GUIDs. */
  lemma GuidValidIff(value: CString)
    ensures GuidValid(value) <==> IsGuid(value)
  {
    if GuidValid(value) {
      GuidSplits(value);
    }
    if IsGuid(value) {
      GuidByte(value, 0);
      forall i: nat | i < 36
        ensures if IsDashIndex(i) then value[i] == '-' as int else IsHex(value[i])
      {
        GuidByte(value, i);
      }
    }
  }

  const TOKEN_LIMIT := 8192

  predicate BearerTokenValid(token: CString) {
    && 0 < |token| <= TOKEN_LIMIT
    && forall i | 0 <= i < |token| ::
      IsUnreserved(token[i]) || token[i] == '+' as int || token[i] == '/' as int || token[i] == '=' as int
  }

  /** A letter, a digit or one of `-._~`, by its code. */
  predicate PlainCode(c: int) {
    48 <= c <= 57 || 65 <= c <= 90 || 97 <= c <= 122 || c == 45 || c == 46 || c == 95 || c == 126
  }

  /** Bearer tokens are 1 to 8192 of the characters of section 2.1 of RFC 6750. */
  lemma BearerTokenValidIff(token: CString)
    ensures BearerTokenValid(token) <==>
              1 <= |token| <= 8192 && forall c | c in token :: PlainCode(c) || c == 43 || c == 47 || c == 61
  {
    if BearerTokenValid(token) {
      forall c | c in token
        ensures PlainCode(c) || c == 43 || c == 47 || c == 61
      {
        var i :| 0 <= i < |token| && token[i] == c;
      }
    }
    if forall c | c in token :: PlainCode(c) || c == 43 || c == 47 || c == 61 {
      forall i | 0 <= i < |token|
        ensures IsUnreserved(token[i]) || token[i] == '+' as int || token[i] == '/' as int || token[i] == '=' as int
      {
        assert token[i] in token;
      }
    }
  }

  /// Percent-encoding

  function HexDigit(n: nat): byte
    requires n < 16
  {
    if n < 10 then '0' as int + n else 'A' as int + n - 10
  }

  function HexValue(c: byte): nat
    requires IsHex(c)
  {
    if IsDigit(c) then c - '0' as int
    else if c <= 'F' as int then c - 'A' as int + 10
    else c - 'a' as int + 10
  }

  function EncodeByte(c: byte): seq<byte> {
    if IsUnreserved(c) then [c] else ['%' as int, HexDigit(c / 16), HexDigit(c % 16)]
  }

  function Encode(s: seq<byte>): seq<byte> {
    if s == [] then [] else Encode(s[..|s| - 1]) + EncodeByte(s[|s| - 1])
  }

  /** A reader of percent-encoded text, section 2.1 of RFC 3986: it knows nothing
      of the encoder and rejects a '%' without two hexadecimal digits. */
  function Decode(s: seq<byte>): Option<seq<byte>> {
    if s == [] then Some([])
    else if s[0] == '%' as int then
      if |s| >= 3 && IsHex(s[1]) && IsHex(s[2]) then
        match Decode(s[3..])
        case None => None
        case Some(rest) => Some([(16 * HexValue(s[1]) + HexValue(s[2])) as byte] + rest)
      else None
    else
      match Decode(s[1..])
      case None => None
      case Some(rest) => Some([s[0]] + rest)
  }

  lemma DecodeStep(c: byte, t: seq<byte>)
    ensures Decode(EncodeByte(c) + t) ==
            match Decode(t) case None => None case Some(rest) => Some([c] + rest)
  {
    var e := EncodeByte(c) + t;
    if IsUnreserved(c) {
      assert e[0] == c && e[1..] == t;
    } else {
      assert e[0] == '%' as int && e[1] == HexDigit(c / 16) && e[2] == HexDigit(c % 16) && e[3..] == t;
    }
  }

  lemma {:induction false} DecodeEncodeAppend(s: seq<byte>, t: seq<byte>)
    ensures Decode(Encode(s) + t) ==
            match Decode(t) case None => None case Some(rest) => Some(s + rest)
    decreases |s|
  {
    hide Decode, Encode, EncodeByte;
    if s == [] {
      EncodeNothing();
      assert Encode(s) + t == t;
      if Decode(t).Some? {
        assert s + Decode(t).value == Decode(t).value;
      }
    } else {
      var front, c := s[..|s| - 1], s[|s| - 1];
      EncodeSnoc(s, |s| - 1);
      assert s[..|s|] == s;
      assert Encode(s) + t == Encode(front) + (EncodeByte(c) + t);
      DecodeStep(c, t);
      DecodeEncodeAppend(front, EncodeByte(c) + t);
      if Decode(t).Some? {
        assert s + Decode(t).value == front + ([c] + Decode(t).value);
      }
    }
  }

  /** Every byte string comes back from its encoding. */
  lemma DecodeEncode(s: seq<byte>)
    ensures Decode(Encode(s)) == Some(s)
  {
    DecodeEncodeAppend(s, []);
    assert Encode(s) + [] == Encode(s);
    assert s + [] == s;
  }

  lemma EncodeByteAlphabet(c: byte)
    ensures var e := EncodeByte(c);
            forall i | 0 <= i < |e| :: PlainCode(e[i]) || e[i] == 37
  {
  }

  /** Strings are encoded byte by byte: a letter, a digit or one of `-._~` stays as it is,
      any other byte becomes a percent sign and two upper-case hexadecimal digits. */
  lemma {:induction false} EncodeBytewise(s: seq<byte>, c: byte, t: seq<byte>)
    ensures Encode([c]) == if PlainCode(c) then [c]
                           else [37, if c < 160 then 48 + c / 16 else 55 + c / 16,
                                 if c % 16 < 10 then 48 + c % 16 else 55 + c % 16]
    ensures Encode(s + t) == Encode(s) + Encode(t)
    decreases |t|
  {
    assert [c][..0] == [] && Encode([]) == [];
    if t == [] {
      assert s + t == s;
    } else {
      var init := t[..|t| - 1];
      assert (s + t)[..|s + t| - 1] == s + init;
      EncodeBytewise(s, c, init);
    }
  }

  /** The output needs no further escaping in a form body (section 2.3 of RFC 3986) and
      fits the buffer of three bytes per input byte. */
  lemma {:induction false} EncodeAlphabet(s: seq<byte>)
    ensures |s| <= |Encode(s)| <= 3 * |s|
    ensures forall i | 0 <= i < |Encode(s)| :: PlainCode(Encode(s)[i]) || Encode(s)[i] == 37
  {
    if s != [] {
      EncodeAlphabet(s[..|s| - 1]);
      EncodeByteAlphabet(s[|s| - 1]);
    }
  }

  /** No two inputs share an encoding. */
  lemma EncodeInjective(s: seq<byte>, t: seq<byte>)
    requires Encode(s) == Encode(t)
    ensures s == t
  {
    DecodeEncode(s);
    DecodeEncode(t);
  }

  lemma EncodeNothing()
    ensures Encode([]) == []
  {
  }

  lemma EncodeSnoc(s: seq<byte>, i: nat)
    requires i < |s|
    ensures Encode(s[..i + 1]) == Encode(s[..i]) + EncodeByte(s[i])
  {
    assert s[..i + 1][..i] == s[..i];
  }

  method PutEncoded(data: array<byte>, j: nat, c: byte) returns (k: nat)
    requires j + 3 <= data.Length
    modifies data
    ensures k <= j + 3 && data[..k] == old(data[..j]) + EncodeByte(c)
  {
    if IsUnreserved(c) {
      data[j] := c;
      return j + 1;
    }
    data[j] := '%' as int;
    data[j + 1] := HexDigit(c / 16);
    data[j + 2] := HexDigit(c % 16);
    return j + 3;
  }

  /** `form_encode`: an array of 3n + 1 bytes filled by a loop; None when the size
      would overflow or the allocation fails. `used` is the terminator's index. */
  method FormEncode(input: CString, allocates: bool) returns (output: Option<array<byte>>, used: nat)
    ensures output.Some? <==> allocates && 3 * |input| + 1 <= 0xFFFF_FFFF
    ensures output.Some? ==> used < output.value.Length && output.value[used] == 0
    ensures output.Some? ==> output.value[..used] == Encode(input)
    ensures output.Some? ==> Decode(output.value[..used]) == Some(input)
  {
    used := 0;
    if |input| > (SIZE_LIMIT - 1) / 3 || !allocates {
      return None, 0;
    }
    hide Encode, Decode, EncodeByte;
    EncodeNothing();
    var data := new byte[3 * |input| + 1];
    var j := 0;
    for i := 0 to |input|
      invariant 0 <= j <= 3 * i
      invariant data[..j] == Encode(input[..i])
    {
      var c := input[i];
      EncodeSnoc(input, i);
      j := PutEncoded(data, j, c);
    }
    assert input[..|input|] == input;
    data[j] := 0;
    DecodeEncode(input);
    return Some(data), j;
  }

  /// Retry-After

  /** The unbounded value of a digit string. */
  function DecimalValue(s: seq<byte>): nat
    requires forall c | c in s :: IsDigit(c)
  {
    if s == [] then 0
    else
      var last := s[|s| - 1];
      assert IsDigit(last);
      10 * DecimalValue(s[..|s| - 1]) + (last - '0' as int)
  }

  /** `retry_after_seconds`: delay-seconds of section 10.2.3 of RFC 9110. The unsigned
      accumulator saturates, so a digit string of any length still means
      its true value, capped at one day. */
  method RetryAfterSeconds(value: Option<CString>) returns (result: nat)
    ensures value.Some? && value.value != [] && (forall c | c in value.value :: IsDigit(c)) ==>
              result == Min(DecimalValue(value.value), 86400)
    ensures value.None? || value.value == [] || (exists c | c in value.value :: !IsDigit(c)) ==>
              result == 0
  {
    if value.None? || value.value == [] {
      return 0;
    }
    var text := value.value;
    var seconds := 0;
    for i := 0 to |text|
      invariant forall c | c in text[..i] :: IsDigit(c)
      invariant seconds == Min(DecimalValue(text[..i]), UINT_LIMIT)
    {
      if !IsDigit(text[i]) {
        return 0;
      }
      var digit := text[i] - '0' as int;
      assert text[..i + 1][..i] == text[..i];
      assert text[..i + 1] == text[..i] + [text[i]];
      seconds := if seconds > (UINT_LIMIT - digit) / 10 then UINT_LIMIT else seconds * 10 + digit;
    }
    assert text[..|text|] == text;
    return if seconds > MAX_RETRY_AFTER then MAX_RETRY_AFTER else seconds;
  }

  /// Response buffer

  /** What `response_append` leaves in a buffer of `capacity` bytes. */
  datatype Response = Response(text: seq<byte>, overflow: bool)

  function Appended(capacity: nat, r: Response, chunk: seq<byte>): Response {
    if r.overflow || capacity == 0 then r
    else if |chunk| >= capacity - |r.text| then r.(overflow := true)
    else r.(text := r.text + chunk)
  }

  function Received(capacity: nat, chunks: seq<seq<byte>>): Response {
    if chunks == [] then Response([], false)
    else Appended(capacity, Received(capacity, chunks[..|chunks| - 1]), chunks[|chunks| - 1])
  }

  function Joined(chunks: seq<seq<byte>>): seq<byte> {
    if chunks == [] then [] else Joined(chunks[..|chunks| - 1]) + chunks[|chunks| - 1]
  }

  /** However a body is cut into chunks, the buffer is marked overflowed exactly when
      body and terminator do not fit; otherwise it holds the whole body, and what it
      holds is always a prefix of the body. */
  lemma {:induction false} ReceivedWhole(capacity: nat, chunks: seq<seq<byte>>)
    requires capacity > 0
    ensures var r := Received(capacity, chunks);
            && r.overflow == (|Joined(chunks)| >= capacity)
            && (!r.overflow ==> r.text == Joined(chunks))
            && r.text <= Joined(chunks) && |r.text| < capacity
  {
    if chunks != [] {
      ReceivedWhole(capacity, chunks[..|chunks| - 1]);
    }
  }

  class ResponseBuffer {
    const data: array<byte>
    var length: nat
    var overflow: bool

    ghost predicate Valid()
      reads this, data
    {
      length < data.Length && data[length] == 0
    }

    ghost function View(): Response
      reads this, data
      requires Valid()
    {
      Response(data[..length], overflow)
    }

    constructor (capacity: nat)
      requires capacity > 0
      ensures fresh(data) && data.Length == capacity
      ensures Valid() && View() == Received(capacity, [])
    {
      data := new byte[capacity](_ => 0);
      length, overflow := 0, false;
    }

    method Append(chunk: array<byte>, count: nat) returns (ok: bool)
      requires Valid() && count <= chunk.Length && chunk != data
      modifies this`length, this`overflow, data
      ensures Valid()
      ensures View() == Appended(data.Length, old(View()), chunk[..count])
      ensures ok <==> !overflow
    {
      if overflow {
        return false;
      }
      if count >= data.Length - length {
        overflow := true;
        return false;
      }
      for i := 0 to count
        invariant data[..length] == old(data[..length])
        invariant data[length..length + i] == chunk[..i]
        modifies data
      {
        data[length + i] := chunk[i];
      }
      assert data[..length + count] == old(data[..length]) + chunk[..count];
      length := length + count;
      data[length] := 0;
      return true;
    }
  }
}
