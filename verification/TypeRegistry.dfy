/** The type-registry table generator: UUID text, the dense class table and its three indexes. */
module TypeRegistry {
  import opened Common
  import opened Ordering

  type Byte = b: nat | b < 256

  type Uuid = u: seq<Byte> | |u| == 16 witness seq(16, _ => 0)

  // ----- UUID text -----

  function HexValue(c: char): (r: Option<nat>)
    ensures r.Some? ==> r.value < 16
  {
    if '0' <= c <= '9' then Some((c - '0') as nat)
    else if 'a' <= c <= 'f' then Some(10 + (c - 'a') as nat)
    else if 'A' <= c <= 'F' then Some(10 + (c - 'A') as nat)
    else None
  }

  function HexByte(b: Byte): string {
    [HexDigit(b / 16), HexDigit(b % 16)]
  }

  function HexBytes(bytes: seq<Byte>): string {
    if bytes == [] then "" else HexByte(bytes[0]) + HexBytes(bytes[1..])
  }

  /** Groups of 4, 2, 2, 2 and 6 bytes joined by hyphens, as in section 4 of RFC 9562. */
  function FormatUuid(u: Uuid): string {
    HexBytes(u[..4]) + "-" + HexBytes(u[4..6]) + "-" + HexBytes(u[6..8]) + "-" + HexBytes(u[8..10]) + "-"
    + HexBytes(u[10..])
  }

  /** `u8::from_str_radix` on two characters: it also takes a plus sign before one digit. */
  function ParseByte(a: char, b: char): Option<Byte> {
    match (HexValue(a), HexValue(b))
    case (Some(high), Some(low)) => Some(16 * high + low)
    case (None, Some(low)) => if a == '+' then Some(low) else None
    case _ => None
  }

  function WithoutHyphens(s: string): string {
    if s == "" then ""
    else (if s[0] == '-' then "" else [s[0]]) + WithoutHyphens(s[1..])
  }

  /** The sixteen pairs of characters left without hyphens read as the bytes of `u`. */
  predicate Parses(s: string, u: Uuid) {
    var cleaned := WithoutHyphens(s);
    |cleaned| == 32 && forall i :: 0 <= i < 16 ==> ParseByte(cleaned[i * 2], cleaned[i * 2 + 1]) == Some(u[i])
  }

  /** Fills the sixteen bytes pair by pair. */
  method ParseUuid(s: string) returns (r: Option<Uuid>)
    ensures r.Some? ==> Parses(s, r.value)
    ensures r.None? ==> forall u :: !Parses(s, u)
  {
    hide WithoutHyphens, ParseByte;
    var cleaned := WithoutHyphens(s);
    if |cleaned| != 32 {
      return None;
    }
    var bytes: seq<Byte> := [];
    for i := 0 to 16
      invariant |bytes| == i
      invariant forall k :: 0 <= k < i ==> ParseByte(cleaned[k * 2], cleaned[k * 2 + 1]) == Some(bytes[k])
    {
      var b := ParseByte(cleaned[i * 2], cleaned[i * 2 + 1]);
      if b.None? {
        return None;
      }
      bytes := bytes + [b.value];
    }
    return Some(bytes);
  }

  /** A text reads as at most one UUID. */
  lemma ParsesUnique(s: string, u: Uuid, v: Uuid)
    requires Parses(s, u) && Parses(s, v)
    ensures u == v
  {
    var cleaned := WithoutHyphens(s);
    forall i | 0 <= i < 16
      ensures u[i] == v[i]
    {
      assert ParseByte(cleaned[i * 2], cleaned[i * 2 + 1]) == Some(u[i]);
    }
  }

  lemma HexByteParses(b: Byte)
    ensures |HexByte(b)| == 2 && HexByte(b)[0] != '-' && HexByte(b)[1] != '-'
    ensures ParseByte(HexByte(b)[0], HexByte(b)[1]) == Some(b)
  {
  }

  lemma PairStripped(a: char, b: char, rest: string)
    requires a != '-' && b != '-' && WithoutHyphens(rest) == rest
    ensures WithoutHyphens([a, b] + rest) == [a, b] + rest
  {
    hide WithoutHyphens;
    OneCharacter(a);
    OneCharacter(b);
    WithoutHyphensConcat([b], rest);
    WithoutHyphensConcat([a], [b] + rest);
    assert [a] + ([b] + rest) == [a, b] + rest;
  }

  lemma {:induction false} HexBytesStripped(bytes: seq<Byte>)
    ensures |HexBytes(bytes)| == 2 * |bytes|
    ensures WithoutHyphens(HexBytes(bytes)) == HexBytes(bytes)
  {
    hide HexByte, ParseByte;
    if bytes != [] {
      var text, pair := HexBytes(bytes), HexByte(bytes[0]);
      HexByteParses(bytes[0]);
      HexBytesStripped(bytes[1..]);
      assert text[0] == pair[0] && text[1] == pair[1] && text[2..] == HexBytes(bytes[1..]);
      PairStripped(pair[0], pair[1], text[2..]);
      assert text == [pair[0], pair[1]] + text[2..];
    }
  }

  lemma {:induction false} HexBytesAt(bytes: seq<Byte>, i: nat)
    requires i < |bytes|
    ensures |HexBytes(bytes)| == 2 * |bytes|
    ensures HexBytes(bytes)[i * 2] == HexByte(bytes[i])[0] && HexBytes(bytes)[i * 2 + 1] == HexByte(bytes[i])[1]
  {
    hide HexByte, WithoutHyphens;
    var text, rest := HexBytes(bytes), HexBytes(bytes[1..]);
    HexByteParses(bytes[0]);
    HexBytesStripped(bytes[1..]);
    if i > 0 {
      HexBytesAt(bytes[1..], i - 1);
      assert text[i * 2] == rest[(i - 1) * 2] && text[i * 2 + 1] == rest[(i - 1) * 2 + 1];
    }
  }

  lemma HexBytesCons(b: Byte, rest: seq<Byte>)
    ensures HexBytes([b] + rest) == HexByte(b) + HexBytes(rest)
  {
    hide HexByte;
    assert ([b] + rest)[1..] == rest;
  }

  lemma ConcatAssoc<T>(a: seq<T>, b: seq<T>, c: seq<T>)
    ensures a + b + c == a + (b + c)
  {
  }

  lemma {:induction false} HexBytesConcat(a: seq<Byte>, b: seq<Byte>)
    ensures HexBytes(a + b) == HexBytes(a) + HexBytes(b)
  {
    if a == [] {
      assert a + b == b;
    } else {
      hide HexBytes, HexByte;
      var head, rest := a[0], a[1..];
      HexBytesConcat(rest, b);
      HexBytesCons(head, rest);
      HexBytesCons(head, rest + b);
      assert a == [head] + rest;
      ConcatAssoc([head], rest, b);
      ConcatAssoc(HexByte(head), HexBytes(rest), HexBytes(b));
    }
  }

  lemma {:induction false} WithoutHyphensConcat(a: string, b: string)
    ensures WithoutHyphens(a + b) == WithoutHyphens(a) + WithoutHyphens(b)
  {
    if a == "" {
      assert a + b == b;
    } else {
      var head := if a[0] == '-' then "" else [a[0]];
      assert (a + b)[1..] == a[1..] + b;
      assert WithoutHyphens(a + b) == head + WithoutHyphens(a[1..] + b);
      assert WithoutHyphens(a) == head + WithoutHyphens(a[1..]);
      hide WithoutHyphens;
      WithoutHyphensConcat(a[1..], b);
      assert head + (WithoutHyphens(a[1..]) + WithoutHyphens(b)) == (head + WithoutHyphens(a[1..])) + WithoutHyphens(b);
    }
  }

  lemma HyphenStripped()
    ensures WithoutHyphens("-") == ""
  {
    assert "-"[1..] == "";
  }

  lemma JoinStripped(a: string, g: seq<Byte>)
    ensures WithoutHyphens(a + "-" + HexBytes(g)) == WithoutHyphens(a) + HexBytes(g)
  {
    HyphenStripped();
    hide WithoutHyphens, HexBytes, HexByte;
    WithoutHyphensConcat(a + "-", HexBytes(g));
    WithoutHyphensConcat(a, "-");
    HexBytesStripped(g);
  }

  lemma FormatStripped(u: Uuid)
    ensures WithoutHyphens(FormatUuid(u)) == HexBytes(u)
  {
    hide WithoutHyphens, HexBytes, HexByte;
    var (a, b, c, d, e) := (u[..4], u[4..6], u[6..8], u[8..10], u[10..]);
    var s1 := HexBytes(a) + "-" + HexBytes(b);
    var s2 := s1 + "-" + HexBytes(c);
    var s3 := s2 + "-" + HexBytes(d);
    HexBytesStripped(a);
    JoinStripped(HexBytes(a), b);
    JoinStripped(s1, c);
    JoinStripped(s2, d);
    JoinStripped(s3, e);
    HexBytesConcat(a, b);
    HexBytesConcat(a + b, c);
    HexBytesConcat(a + b + c, d);
    HexBytesConcat(a + b + c + d, e);
    assert u == a + b + c + d + e;
  }

  /** Formatting then parsing gives the bytes back. */
  lemma FormatRoundTrip(u: Uuid)
    ensures Parses(FormatUuid(u), u)
  {
    hide WithoutHyphens, HexBytes, HexByte, ParseByte;
    FormatStripped(u);
    HexBytesStripped(u);
    forall i | 0 <= i < 16
      ensures ParseByte(HexBytes(u)[i * 2], HexBytes(u)[i * 2 + 1]) == Some(u[i])
    {
      HexBytesAt(u, i);
      HexByteParses(u[i]);
    }
  }

  method ParseFormatted(u: Uuid) returns (r: Option<Uuid>)
    ensures r == Some(u)
  {
    hide Parses;
    FormatRoundTrip(u);
    r := ParseUuid(FormatUuid(u));
    if r.Some? {
      ParsesUnique(FormatUuid(u), u, r.value);
    }
  }

  // ----- the text form -----

  lemma DigitsAre(n: nat)
    requires n < 16
    ensures HexDigit(n) == "0123456789abcdef"[n]
  {
  }

  /** Where byte `k` starts in the text: two digits a byte, one hyphen before each of the bytes 4, 6, 8
      and 10. */
  function TextOffset(k: nat): nat {
    2 * k + (if k < 4 then 0 else if k < 6 then 1 else if k < 8 then 2 else if k < 10 then 3 else 4)
  }

  /** Every byte stands at its place as two lower-case digits, the high one first, with hyphens after 8,
      12, 16 and 20 digits. */
  lemma FormatLayout(u: Uuid, k: nat)
    requires k < 16
    ensures var s, digits := FormatUuid(u), "0123456789abcdef";
            && |s| == 36 && s[8] == s[13] == s[18] == s[23] == '-'
            && s[TextOffset(k)] == digits[u[k] / 16] && s[TextOffset(k) + 1] == digits[u[k] % 16]
  {
    hide FormatUuid, HexByte;
    FormatByte(u, k);
    ByteDigits(u[k]);
  }

  lemma FormatByte(u: Uuid, k: nat)
    requires k < 16
    ensures var s := FormatUuid(u);
            && |s| == 36 && s[8] == s[13] == s[18] == s[23] == '-' && |HexByte(u[k])| == 2
            && s[TextOffset(k)] == HexByte(u[k])[0] && s[TextOffset(k) + 1] == HexByte(u[k])[1]
  {
    HexByteParses(u[k]);
    hide HexBytes, HexByte;
    Groups(u);
    GroupOf(u, k);
    var s := FormatUuid(u);
    hide FormatUuid;
    if k < 4 {
      assert s[TextOffset(k)] == s[..8][2 * k] && s[TextOffset(k) + 1] == s[..8][2 * k + 1];
    } else if k < 6 {
      assert s[TextOffset(k)] == s[9..13][2 * (k - 4)] && s[TextOffset(k) + 1] == s[9..13][2 * (k - 4) + 1];
    } else if k < 8 {
      assert s[TextOffset(k)] == s[14..18][2 * (k - 6)] && s[TextOffset(k) + 1] == s[14..18][2 * (k - 6) + 1];
    } else if k < 10 {
      assert s[TextOffset(k)] == s[19..23][2 * (k - 8)] && s[TextOffset(k) + 1] == s[19..23][2 * (k - 8) + 1];
    } else {
      assert u[10..] == u[10..16];
      assert s[TextOffset(k)] == s[24..][2 * (k - 10)] && s[TextOffset(k) + 1] == s[24..][2 * (k - 10) + 1];
    }
  }

  /** The five groups and the hyphens between them. */
  lemma Groups(u: Uuid)
    ensures var s := FormatUuid(u);
            && |s| == 36 && s[8] == s[13] == s[18] == s[23] == '-'
            && s[..8] == HexBytes(u[..4]) && s[9..13] == HexBytes(u[4..6]) && s[14..18] == HexBytes(u[6..8])
            && s[19..23] == HexBytes(u[8..10]) && s[24..] == HexBytes(u[10..])
  {
    hide HexBytes, HexByte;
    HexBytesStripped(u[..4]);
    HexBytesStripped(u[4..6]);
    HexBytesStripped(u[6..8]);
    HexBytesStripped(u[8..10]);
    HexBytesStripped(u[10..]);
    Joined(HexBytes(u[..4]), HexBytes(u[4..6]), HexBytes(u[6..8]), HexBytes(u[8..10]), HexBytes(u[10..]));
  }

  lemma Joined(a: string, b: string, c: string, d: string, e: string)
    requires |a| == 8 && |b| == |c| == |d| == 4 && |e| == 12
    ensures var s := a + "-" + b + "-" + c + "-" + d + "-" + e;
            && |s| == 36 && s[8] == s[13] == s[18] == s[23] == '-'
            && s[..8] == a && s[9..13] == b && s[14..18] == c && s[19..23] == d && s[24..] == e
  {
  }

  /** The group of byte `k` and the byte's place in it. */
  lemma GroupOf(u: Uuid, k: nat)
    requires k < 16
    ensures var from := if k < 4 then 0 else if k < 6 then 4 else if k < 8 then 6 else if k < 10 then 8 else 10;
            var to := if k < 4 then 4 else if k < 6 then 6 else if k < 8 then 8 else if k < 10 then 10 else 16;
            && |HexBytes(u[from..to])| == 2 * (to - from)
            && HexBytes(u[from..to])[2 * (k - from)] == HexByte(u[k])[0]
            && HexBytes(u[from..to])[2 * (k - from) + 1] == HexByte(u[k])[1]
  {
    hide HexBytes, HexByte;
    var from := if k < 4 then 0 else if k < 6 then 4 else if k < 8 then 6 else if k < 10 then 8 else 10;
    var to := if k < 4 then 4 else if k < 6 then 6 else if k < 8 then 8 else if k < 10 then 10 else 16;
    HexBytesAt(u[from..to], k - from);
    assert u[from..to][k - from] == u[k];
  }

  lemma ByteDigits(b: Byte)
    ensures |HexByte(b)| == 2
    ensures HexByte(b)[0] == "0123456789abcdef"[b / 16] && HexByte(b)[1] == "0123456789abcdef"[b % 16]
  {
    DigitsAre(b / 16);
    DigitsAre(b % 16);
  }

  // ----- where parsing is more lenient than the format -----

  /** Exactly the texts that parse: 32 characters besides hyphens, hexadecimal digits of either case,
      except that a plus sign may stand first in a pair. */
  lemma AcceptedExactly(s: string)
    ensures (exists u: Uuid :: Parses(s, u))
       <==> var cleaned := WithoutHyphens(s);
            && |cleaned| == 32
            && forall i :: 0 <= i < 16 ==>
                 && (HexValue(cleaned[i * 2]).Some? || cleaned[i * 2] == '+')
                 && HexValue(cleaned[i * 2 + 1]).Some?
  {
    var cleaned := WithoutHyphens(s);
    hide WithoutHyphens, HexValue;
    if u: Uuid :| Parses(s, u) {
      forall i | 0 <= i < 16
        ensures (HexValue(cleaned[i * 2]).Some? || cleaned[i * 2] == '+') && HexValue(cleaned[i * 2 + 1]).Some?
      {
        assert ParseByte(cleaned[i * 2], cleaned[i * 2 + 1]) == Some(u[i]);
      }
    } else if |cleaned| == 32 && forall i :: 0 <= i < 16 ==> ParseByte(cleaned[i * 2], cleaned[i * 2 + 1]).Some? {
      var u: Uuid := seq(16, i requires 0 <= i < 16 => ParseByte(cleaned[i * 2], cleaned[i * 2 + 1]).value);
      assert Parses(s, u);
    }
  }

  function LowerDigit(c: char): char {
    if 'A' <= c <= 'F' then c - 'A' + 'a' else c
  }

  function Lower(s: string): string {
    seq(|s|, i requires 0 <= i < |s| => LowerDigit(s[i]))
  }

  lemma {:induction false} HyphensAside(s: string, c: char)
    requires c != '-'
    ensures c in WithoutHyphens(s) <==> c in s
  {
    if s != "" {
      HyphensAside(s[1..], c);
      assert s == [s[0]] + s[1..];
    }
  }

  /** A pair that reads as `b` is the way `b` is written, up to case, unless it starts with a plus. */
  lemma PairWritten(a: char, c: char, b: Byte)
    requires ParseByte(a, c) == Some(b)
    ensures c != '+' && LowerDigit(c) == HexByte(b)[1]
    ensures LowerDigit(a) == HexByte(b)[0] <==> a != '+'
  {
    if HexValue(a).Some? {
      assert b / 16 == HexValue(a).value && b % 16 == HexValue(c).value;
    } else {
      assert b / 16 == 0 && b % 16 == b;
    }
  }

  /** Exactly when an accepted text is a way to write its UUID, up to hyphens and case: when it has no
      plus sign, which is read as a leading zero. */
  lemma WrittenExactly(s: string, u: Uuid)
    requires Parses(s, u)
    ensures Lower(WithoutHyphens(s)) == HexBytes(u) <==> '+' !in s
  {
    hide WithoutHyphens, ParseByte, HexBytes, HexByte, LowerDigit;
    var cleaned, text := WithoutHyphens(s), HexBytes(u);
    var lower := Lower(cleaned);
    HexBytesStripped(u);
    HyphensAside(s, '+');
    forall i | 0 <= i < 16
      ensures cleaned[i * 2 + 1] != '+' && lower[i * 2 + 1] == text[i * 2 + 1]
      ensures lower[i * 2] == text[i * 2] <==> cleaned[i * 2] != '+'
    {
      HexBytesAt(u, i);
      PairWritten(cleaned[i * 2], cleaned[i * 2 + 1], u[i]);
    }
    if lower == text {
      forall k | 0 <= k < 32
        ensures cleaned[k] != '+'
      {
        var i := k / 2;
        assert k == i * 2 || k == i * 2 + 1;
      }
    } else {
      var k :| 0 <= k < 32 && lower[k] != text[k];
      var i := k / 2;
      assert k == i * 2;
    }
  }

  /** Every UUID whose first byte is below 16 has such a text: a plus sign for its first digit. */
  lemma PlusSignParses(u: Uuid)
    requires u[0] < 16
    ensures |HexBytes(u)| == 32 && Parses("+" + HexBytes(u)[1..], u)
  {
    hide WithoutHyphens, HexBytes, HexByte, ParseByte;
    HexBytesStripped(u);
    HexBytesAt(u, 0);
    HexByteParses(u[0]);
    var text := HexBytes(u);
    var plus := "+" + text[1..];
    WithoutHyphensConcat([text[0]], text[1..]);
    WithoutHyphensConcat("+", text[1..]);
    assert [text[0]] + text[1..] == text;
    OneCharacter(text[0]);
    OneCharacter('+');
    assert WithoutHyphens(plus) == plus;
    forall i | 0 <= i < 16
      ensures ParseByte(plus[i * 2], plus[i * 2 + 1]) == Some(u[i])
    {
      HexBytesAt(u, i);
      HexByteParses(u[i]);
      if i == 0 {
        PlusPair(u[0]);
      }
    }
  }

  lemma OneCharacter(c: char)
    requires c != '-'
    ensures WithoutHyphens([c]) == [c]
  {
    assert [c][1..] == "";
  }

  lemma PlusPair(b: Byte)
    requires b < 16
    ensures ParseByte('+', HexByte(b)[1]) == Some(b)
  {
  }

  // ----- the tables -----

  datatype Entry = Entry(uuid: Uuid, name: string, classIndex: nat, typeIndex: nat)

  datatype Failure = NotDense | DuplicateUuid | DuplicateTypeIndex

  datatype Tables = Tables(
    entries: seq<Entry>,
    byUuid: map<Uuid, nat>,
    byTypeIndex: map<nat, Uuid>,
    sorted: seq<(nat, nat, nat)>)

  /** `u128::from_be_bytes` */
  function Value(bytes: seq<Byte>): nat {
    if bytes == [] then 0 else Value(bytes[..|bytes| - 1]) * 256 + bytes[|bytes| - 1]
  }

  lemma {:induction false} ValueInjective(a: seq<Byte>, b: seq<Byte>)
    requires |a| == |b| && Value(a) == Value(b)
    ensures a == b
  {
    if a != [] {
      ValueInjective(a[..|a| - 1], b[..|b| - 1]);
      assert a == a[..|a| - 1] + [a[|a| - 1]] && b == b[..|b| - 1] + [b[|b| - 1]];
    }
  }

  lemma {:induction false} ValueBound(a: seq<Byte>, b: seq<Byte>, i: nat)
    requires |a| == |b| && i < |a| && a[..i] == b[..i] && a[i] < b[i]
    ensures Value(a) < Value(b)
    decreases |a|
  {
    var n := |a| - 1;
    if i == n {
      assert a[..n] == b[..n];
    } else {
      assert a[..n][..i] == b[..n][..i];
      ValueBound(a[..n], b[..n], i);
    }
  }

  /** Numbers compare as the bytes do, from the first one that differs. */
  lemma ValueOrder(a: seq<Byte>, b: seq<Byte>)
    requires |a| == |b|
    ensures Value(a) < Value(b) <==> exists i :: 0 <= i < |a| && a[..i] == b[..i] && a[i] < b[i]
  {
    if i :| 0 <= i < |a| && a[..i] == b[..i] && a[i] < b[i] {
      ValueBound(a, b, i);
    }
    if Value(a) < Value(b) {
      var i := FirstDifference(a, b);
      if b[i] < a[i] {
        ValueBound(b, a, i);
      }
    }
  }

  lemma {:induction false} FirstDifference(a: seq<Byte>, b: seq<Byte>) returns (i: nat)
    requires |a| == |b| && a != b
    ensures i < |a| && a[..i] == b[..i] && a[i] != b[i]
  {
    var n := |a| - 1;
    if a[..n] == b[..n] {
      i := n;
      assert a == a[..n] + [a[n]] && b == b[..n] + [b[n]];
    } else {
      i := FirstDifference(a[..n], b[..n]);
      assert a[..n][..i] == a[..i] && b[..n][..i] == b[..i];
    }
  }

  predicate ByClass(a: Entry, b: Entry) {
    a.classIndex <= b.classIndex
  }

  predicate ByUuid(a: Entry, b: Entry) {
    Value(a.uuid) <= Value(b.uuid)
  }

  /** Position and class index agree in the whole table. */
  predicate Dense(entries: seq<Entry>) {
    forall i :: 0 <= i < |entries| ==> entries[i].classIndex == i
  }

  method ValidateDense(entries: seq<Entry>) returns (ok: bool)
    ensures ok <==> Dense(entries)
  {
    for slot := 0 to |entries|
      invariant forall i :: 0 <= i < slot ==> entries[i].classIndex == i
    {
      if entries[slot].classIndex != slot {
        return false;
      }
    }
    return true;
  }

  /** A perfect-hash map refuses to build with a repeated key. */
  method WriteUuidMap(entries: seq<Entry>) returns (r: Option<map<Uuid, nat>>)
    ensures r.Some? <==> DistinctUuids(entries)
    ensures r.Some? ==> IsUuidMap(r.value, entries)
  {
    var m: map<Uuid, nat> := map[];
    for i := 0 to |entries|
      invariant DistinctUuids(entries[..i]) && IsUuidMap(m, entries[..i])
    {
      UuidMapStep(entries, i, m);
      hide DistinctUuids, IsUuidMap;
      if entries[i].uuid in m {
        return None;
      }
      m := m[entries[i].uuid := entries[i].classIndex];
    }
    assert entries[..|entries|] == entries;
    return Some(m);
  }

  lemma UuidMapStep(entries: seq<Entry>, i: nat, m: map<Uuid, nat>)
    requires i < |entries| && DistinctUuids(entries[..i]) && IsUuidMap(m, entries[..i])
    ensures entries[i].uuid in m ==> !DistinctUuids(entries)
    ensures entries[i].uuid !in m ==>
              && DistinctUuids(entries[..i + 1])
              && IsUuidMap(m[entries[i].uuid := entries[i].classIndex], entries[..i + 1])
  {
    assert entries[..i + 1] == entries[..i] + [entries[i]];
    if entries[i].uuid in m {
      var k :| 0 <= k < |entries[..i]| && entries[..i][k].uuid == entries[i].uuid;
      assert entries[k].uuid == entries[i].uuid;
    } else {
      var n, longer := m[entries[i].uuid := entries[i].classIndex], entries[..i + 1];
      forall u <- n
        ensures exists k :: 0 <= k < |longer| && longer[k].uuid == u
      {
        if u in m {
          var k :| 0 <= k < |entries[..i]| && entries[..i][k].uuid == u;
          assert longer[k].uuid == u;
        } else {
          assert longer[i].uuid == u;
        }
      }
    }
  }

  /** Type index 0 stands for "none" and is skipped; any other may occur once. */
  method WriteTypeIndexMap(entries: seq<Entry>) returns (r: Option<map<nat, Uuid>>)
    ensures r.Some? <==> DistinctTypeIndices(entries)
    ensures r.Some? ==> IsTypeIndexMap(r.value, entries)
  {
    var seen: set<nat> := {};
    var m: map<nat, Uuid> := map[];
    for i := 0 to |entries|
      invariant DistinctTypeIndices(entries[..i]) && IsTypeIndexMap(m, entries[..i])
      invariant seen == m.Keys
    {
      TypeIndexMapStep(entries, i, m);
      hide DistinctTypeIndices, IsTypeIndexMap;
      if entries[i].typeIndex == 0 {
        continue;
      }
      if entries[i].typeIndex in seen {
        return None;
      }
      seen := seen + {entries[i].typeIndex};
      m := m[entries[i].typeIndex := entries[i].uuid];
    }
    assert entries[..|entries|] == entries;
    return Some(m);
  }

  lemma TypeIndexMapStep(entries: seq<Entry>, i: nat, m: map<nat, Uuid>)
    requires i < |entries| && DistinctTypeIndices(entries[..i]) && IsTypeIndexMap(m, entries[..i])
    ensures var e := entries[i];
            && (e.typeIndex == 0 ==> DistinctTypeIndices(entries[..i + 1]) && IsTypeIndexMap(m, entries[..i + 1]))
            && (e.typeIndex != 0 && e.typeIndex in m ==> !DistinctTypeIndices(entries))
            && (e.typeIndex != 0 && e.typeIndex !in m ==>
                 DistinctTypeIndices(entries[..i + 1]) && IsTypeIndexMap(m[e.typeIndex := e.uuid], entries[..i + 1]))
  {
    var e, shorter, longer := entries[i], entries[..i], entries[..i + 1];
    assert longer == shorter + [e];
    if e.typeIndex != 0 && e.typeIndex in m {
      var k :| 0 <= k < |shorter| && shorter[k].typeIndex == e.typeIndex;
      assert entries[k].typeIndex == entries[i].typeIndex;
    } else {
      forall t <- m
        ensures exists k :: 0 <= k < |longer| && longer[k].typeIndex == t != 0
      {
        var k :| 0 <= k < |shorter| && shorter[k].typeIndex == t != 0;
        assert longer[k].typeIndex == t;
      }
      assert longer[i] == e;
    }
  }

  predicate DistinctUuids(entries: seq<Entry>) {
    forall i, j :: 0 <= i < j < |entries| ==> entries[i].uuid != entries[j].uuid
  }

  predicate DistinctTypeIndices(entries: seq<Entry>) {
    forall i, j :: 0 <= i < j < |entries| && entries[i].typeIndex != 0 ==> entries[i].typeIndex != entries[j].typeIndex
  }

  /** Exactly the rows' UUIDs, each with its row's class index. */
  ghost predicate IsUuidMap(m: map<Uuid, nat>, entries: seq<Entry>) {
    && (forall i :: 0 <= i < |entries| ==> entries[i].uuid in m && m[entries[i].uuid] == entries[i].classIndex)
    && (forall u <- m :: exists i :: 0 <= i < |entries| && entries[i].uuid == u)
  }

  ghost predicate IsTypeIndexMap(m: map<nat, Uuid>, entries: seq<Entry>) {
    && (forall i :: 0 <= i < |entries| && entries[i].typeIndex != 0 ==>
         entries[i].typeIndex in m && m[entries[i].typeIndex] == entries[i].uuid)
    && (forall t <- m :: exists i :: 0 <= i < |entries| && entries[i].typeIndex == t != 0)
  }

  function SortedRow(e: Entry): (nat, nat, nat) {
    (Value(e.uuid), e.classIndex, e.typeIndex)
  }

  function SortedRows(entries: seq<Entry>): seq<(nat, nat, nat)> {
    var sorted := Sort(ByUuid, entries);
    seq(|sorted|, i requires 0 <= i < |sorted| => SortedRow(sorted[i]))
  }

  /** The rows of a snapshot in class order. */
  function ClassTable(rows: seq<Entry>): seq<Entry> {
    Sort(ByClass, rows)
  }

  method Emit(rows: seq<Entry>) returns (r: Result<Tables, Failure>)
    ensures r.Ok? <==> Emittable(rows)
    ensures r.Ok? ==> IsEmitted(r.value, rows)
  {
    var entries := ClassTable(rows);
    ByClassTotal();
    SortKeeps(ByClass, rows);
    SameChecks(rows, entries);
    var dense := ValidateDense(entries);
    DenseExactly(rows);
    if !dense {
      return Err(NotDense);
    }
    var byUuid := WriteUuidMap(entries);
    if byUuid.None? {
      return Err(DuplicateUuid);
    }
    var byTypeIndex := WriteTypeIndexMap(entries);
    if byTypeIndex.None? {
      return Err(DuplicateTypeIndex);
    }
    return Ok(Tables(entries, byUuid.value, byTypeIndex.value, SortedRows(entries)));
  }

  // ----- when a snapshot passes, in terms of its rows -----

  /** The class indices are a permutation of 0 .. N-1. */
  ghost predicate ClassPermutation(rows: seq<Entry>) {
    && (forall i :: 0 <= i < |rows| ==> rows[i].classIndex < |rows|)
    && (forall i, j :: 0 <= i < j < |rows| ==> rows[i].classIndex != rows[j].classIndex)
  }

  ghost predicate Emittable(rows: seq<Entry>) {
    ClassPermutation(rows) && DistinctUuids(rows) && DistinctTypeIndices(rows)
  }

  ghost predicate IsEmitted(t: Tables, rows: seq<Entry>) {
    && t.entries == ClassTable(rows)
    && IsUuidMap(t.byUuid, t.entries) && IsTypeIndexMap(t.byTypeIndex, t.entries)
    && t.sorted == SortedRows(t.entries)
  }

  lemma ByClassTotal()
    ensures TotalOrder(ByClass) && TotalOrder(ByUuid)
  {
  }

  predicate SameUuid(a: Entry, b: Entry) {
    a.uuid == b.uuid
  }

  predicate SameType(a: Entry, b: Entry) {
    a.typeIndex == b.typeIndex != 0
  }

  predicate SameClass(a: Entry, b: Entry) {
    a.classIndex == b.classIndex
  }

  /** The checks on UUIDs and type indices do not depend on the order of rows. */
  lemma SameChecks(a: seq<Entry>, b: seq<Entry>)
    requires multiset(a) == multiset(b)
    ensures DistinctUuids(a) <==> DistinctUuids(b)
    ensures DistinctTypeIndices(a) <==> DistinctTypeIndices(b)
  {
    assert forall s :: DistinctUuids(s) <==> NoPair(SameUuid, s);
    assert forall s :: DistinctTypeIndices(s) <==> NoPair(SameType, s);
    if DistinctUuids(a) {
      NoPairReordered(SameUuid, a, b);
    }
    if DistinctUuids(b) {
      NoPairReordered(SameUuid, b, a);
    }
    if DistinctTypeIndices(a) {
      NoPairReordered(SameType, a, b);
    }
    if DistinctTypeIndices(b) {
      NoPairReordered(SameType, b, a);
    }
  }

  lemma ClassPermutationReordered(a: seq<Entry>, b: seq<Entry>)
    requires multiset(a) == multiset(b) && ClassPermutation(a)
    ensures ClassPermutation(b)
  {
    assert NoPair(SameClass, a);
    NoPairReordered(SameClass, a, b);
    assert |a| == |b| by {
      assert |multiset(a)| == |multiset(b)|;
    }
    forall i | 0 <= i < |b|
      ensures b[i].classIndex < |b|
    {
      assert b[i] in multiset(a);
      var k :| 0 <= k < |a| && a[k] == b[i];
    }
    forall i, j | 0 <= i < j < |b|
      ensures b[i].classIndex != b[j].classIndex
    {
      assert !SameClass(b[i], b[j]);
    }
  }

  lemma {:induction false} StrictlyAbove(entries: seq<Entry>, i: nat)
    requires i < |entries| && forall k :: 0 <= k < |entries| - 1 ==> entries[k].classIndex < entries[k + 1].classIndex
    ensures entries[i].classIndex >= i
  {
    if i > 0 {
      StrictlyAbove(entries, i - 1);
      assert entries[i - 1].classIndex < entries[(i - 1) + 1].classIndex;
    }
  }

  lemma {:induction false} StrictlyBelow(entries: seq<Entry>, i: nat)
    requires i < |entries| && forall k :: 0 <= k < |entries| - 1 ==> entries[k].classIndex < entries[k + 1].classIndex
    requires entries[|entries| - 1].classIndex < |entries|
    ensures entries[i].classIndex <= i
    decreases |entries| - i
  {
    if i < |entries| - 1 {
      StrictlyBelow(entries, i + 1);
      assert entries[i].classIndex < entries[i + 1].classIndex;
    }
  }

  /** A snapshot passes the density check exactly when its class indices are a permutation of
      0 .. N-1. */
  lemma DenseExactly(rows: seq<Entry>)
    ensures Dense(ClassTable(rows)) <==> ClassPermutation(rows)
  {
    var entries := ClassTable(rows);
    ByClassTotal();
    SortKeeps(ByClass, rows);
    if Dense(entries) {
      assert ClassPermutation(entries);
      ClassPermutationReordered(entries, rows);
    }
    if ClassPermutation(rows) {
      ClassPermutationReordered(rows, entries);
      forall k | 0 <= k < |entries| - 1
        ensures entries[k].classIndex < entries[k + 1].classIndex
      {
        assert ByClass(entries[k], entries[k + 1]);
      }
      forall i | 0 <= i < |entries|
        ensures entries[i].classIndex == i
      {
        StrictlyAbove(entries, i);
        StrictlyBelow(entries, i);
      }
    }
  }

  // ----- main results -----

  lemma DenseStrict(entries: seq<Entry>)
    requires Dense(entries)
    ensures Strict(ByClass, entries)
  {
  }

  /** The output does not depend on the order of the snapshot's rows. */
  lemma OrderDoesNotMatter(a: seq<Entry>, b: seq<Entry>, s: Tables, t: Tables)
    requires multiset(a) == multiset(b)
    ensures Emittable(a) <==> Emittable(b)
    ensures Emittable(a) && IsEmitted(s, a) && IsEmitted(t, b) ==> s == t
  {
    SameChecks(a, b);
    if ClassPermutation(a) {
      ClassPermutationReordered(a, b);
    }
    if ClassPermutation(b) {
      ClassPermutationReordered(b, a);
    }
    if Emittable(a) && IsEmitted(s, a) && IsEmitted(t, b) {
      SameTable(a, b);
      MapsAreUnique(s, t);
    }
  }

  lemma SameTable(a: seq<Entry>, b: seq<Entry>)
    requires multiset(a) == multiset(b) && ClassPermutation(a)
    ensures ClassTable(a) == ClassTable(b)
  {
    ByClassTotal();
    SortKeeps(ByClass, a);
    SortKeeps(ByClass, b);
    DenseExactly(a);
    DenseStrict(ClassTable(a));
    SortedUnique(ByClass, ClassTable(a), ClassTable(b));
  }

  lemma MapsAreUnique(s: Tables, t: Tables)
    requires s.entries == t.entries && s.sorted == t.sorted
    requires IsUuidMap(s.byUuid, s.entries) && IsUuidMap(t.byUuid, t.entries)
    requires IsTypeIndexMap(s.byTypeIndex, s.entries) && IsTypeIndexMap(t.byTypeIndex, t.entries)
    ensures s == t
  {
    hide IsUuidMap, IsTypeIndexMap;
    UuidMapUnique(s.byUuid, t.byUuid, s.entries);
    TypeIndexMapUnique(s.byTypeIndex, t.byTypeIndex, s.entries);
  }

  lemma UuidMapUnique(m: map<Uuid, nat>, n: map<Uuid, nat>, entries: seq<Entry>)
    requires IsUuidMap(m, entries) && IsUuidMap(n, entries)
    ensures m == n
  {
    assert m.Keys == n.Keys;
    forall u <- m
      ensures m[u] == n[u]
    {
      var i :| 0 <= i < |entries| && entries[i].uuid == u;
    }
  }

  lemma TypeIndexMapUnique(m: map<nat, Uuid>, n: map<nat, Uuid>, entries: seq<Entry>)
    requires IsTypeIndexMap(m, entries) && IsTypeIndexMap(n, entries)
    ensures m == n
  {
    forall k
      ensures k in m <==> k in n
      ensures k in m ==> m[k] == n[k]
    {
      if k in m {
        var i :| 0 <= i < |entries| && entries[i].typeIndex == k != 0;
      }
      if k in n {
        var i :| 0 <= i < |entries| && entries[i].typeIndex == k != 0;
      }
    }
    assert m.Keys == n.Keys;
  }

  /** The UUID table is sorted and holds exactly the rows. */
  lemma SortedHoldsRows(entries: seq<Entry>)
    ensures var sorted := SortedRows(entries);
            && |sorted| == |entries|
            && (forall i, j :: 0 <= i < j < |sorted| ==> sorted[i].0 <= sorted[j].0)
            && (forall i :: 0 <= i < |entries| ==> SortedRow(entries[i]) in sorted)
            && (forall r <- sorted :: exists i :: 0 <= i < |entries| && r == SortedRow(entries[i]))
  {
    ByClassTotal();
    SortKeeps(ByUuid, entries);
    SortMembers(ByUuid, entries);
    var items, sorted := Sort(ByUuid, entries), SortedRows(entries);
    forall i, j | 0 <= i < j < |sorted|
      ensures sorted[i].0 <= sorted[j].0
    {
      assert ByUuid(items[i], items[j]);
    }
    forall i | 0 <= i < |entries|
      ensures SortedRow(entries[i]) in sorted
    {
      assert entries[i] in items;
      var k :| 0 <= k < |items| && items[k] == entries[i];
      assert sorted[k] == SortedRow(entries[i]);
    }
    forall r <- sorted
      ensures exists i :: 0 <= i < |entries| && r == SortedRow(entries[i])
    {
      var k :| 0 <= k < |sorted| && sorted[k] == r;
      assert items[k] in items && items[k] in entries;
    }
  }

  /** Main result: every row is found under its UUID in the UUID map and the sorted table, and under
      its type index unless that is 0, always as the same row. */
  lemma TablesAgree(rows: seq<Entry>, t: Tables, i: nat)
    requires Emittable(rows) && IsEmitted(t, rows) && i < |t.entries|
    ensures |t.entries| == |rows| && t.entries[i] in rows && t.entries[i].classIndex == i
    ensures var e := t.entries[i];
            && e.uuid in t.byUuid && t.byUuid[e.uuid] == i
            && (e.typeIndex != 0 ==> e.typeIndex in t.byTypeIndex && t.byUuid[t.byTypeIndex[e.typeIndex]] == i)
            && (Value(e.uuid), i, e.typeIndex) in t.sorted
            && (forall row <- t.sorted :: row.0 == Value(e.uuid) ==> row == (Value(e.uuid), i, e.typeIndex))
  {
    ByClassTotal();
    DenseExactly(rows);
    SortMembers(ByClass, rows);
    SortKeeps(ByClass, rows);
    SameChecks(rows, t.entries);
    SortedHoldsRows(t.entries);
    var e := t.entries[i];
    assert SortedRow(e) in t.sorted;
    forall row | row in t.sorted && row.0 == Value(e.uuid)
      ensures row == SortedRow(e)
    {
      var k :| 0 <= k < |t.entries| && row == SortedRow(t.entries[k]);
      ValueInjective(t.entries[k].uuid, e.uuid);
      assert k == i;
    }
  }

  /** Conversely every key of an index stems from a row. */
  lemma KeysStemFromRows(rows: seq<Entry>, t: Tables)
    requires Emittable(rows) && IsEmitted(t, rows)
    ensures forall u <- t.byUuid :: t.byUuid[u] < |t.entries| && t.entries[t.byUuid[u]].uuid == u
    ensures forall n <- t.byTypeIndex ::
              && n != 0
              && exists i :: 0 <= i < |t.entries| && t.entries[i].typeIndex == n
                             && t.entries[i].uuid == t.byTypeIndex[n]
  {
    DenseExactly(rows);
    forall u <- t.byUuid
      ensures t.byUuid[u] < |t.entries| && t.entries[t.byUuid[u]].uuid == u
    {
      var i :| 0 <= i < |t.entries| && t.entries[i].uuid == u;
    }
  }
}
