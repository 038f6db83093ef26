/** The opaque pagination cursor: version byte, signed microseconds big-endian, and
    a version 7 UUID, in unpadded base64url. */
module MessageCursor {
  import opened Common
  import opened Base64Url

  const VERSION: Byte := 1
  const PAYLOAD_BYTES := 25

  /** 1 January of year 1, and the last microsecond of year 9999. */
  const MINIMUM: int := -62_135_596_800_000_000
  const MAXIMUM: int := 253_402_300_799_999_999

  const TWO_63: int := 0x8000_0000_0000_0000
  const TWO_64: int := 0x1_0000_0000_0000_0000

  /** A position in the listing: receive time in microseconds and message id. */
  datatype Cursor = Cursor(at: int, id: nat)

  function Pow256(n: nat): (p: nat)
    ensures p > 0
  {
    if n == 0 then 1 else 256 * Pow256(n - 1)
  }

  /** `k` bytes, most significant first. */
  function BigEndian(n: nat, k: nat): (b: seq<Byte>)
    ensures |b| == k
  {
    if k == 0 then [] else BigEndian(n / 256, k - 1) + [n % 256]
  }

  function FromBigEndian(b: seq<Byte>): nat {
    if b == [] then 0 else FromBigEndian(b[..|b| - 1]) * 256 + b[|b| - 1] as int
  }

  lemma {:induction false} BigEndianRoundTrip(n: nat, k: nat)
    requires n < Pow256(k)
    ensures FromBigEndian(BigEndian(n, k)) == n
  {
    if k > 0 {
      BigEndianRoundTrip(n / 256, k - 1);
      var b := BigEndian(n, k);
      assert b[..k - 1] == BigEndian(n / 256, k - 1);
      assert b[k - 1] == n % 256;
    }
  }

  /** The two's complement conversions of uint64(x) and of reading an int64. */
  function ToUnsigned(x: int): nat
    requires -TWO_63 <= x < TWO_63
  {
    if x < 0 then x + TWO_64 else x
  }

  function ToSigned(n: nat): int {
    if n < TWO_63 then n else n - TWO_64
  }

  /** The version nibble of a 16-byte UUID. */
  predicate Version7(id: nat) {
    id < Pow256(16) && BigEndian(id, 16)[6] / 16 == 7
  }

  predicate ValidTime(at: int) {
    MINIMUM < at <= MAXIMUM
  }

  /** time.Truncate(time.Microsecond) on nanoseconds. */
  function Microseconds(nanos: int): int {
    nanos / 1000
  }

  function Payload(c: Cursor): seq<Byte>
    requires ValidTime(c.at)
  {
    [VERSION] + BigEndian(ToUnsigned(c.at), 8) + BigEndian(c.id, 16)
  }

  /** The payload written into its buffer byte by byte, as encodeMessageCursor does. */
  method FillPayload(c: Cursor) returns (payload: array<Byte>)
    requires ValidTime(c.at)
    ensures fresh(payload) && payload[..] == Payload(c)
  {
    payload := new Byte[PAYLOAD_BYTES];
    payload[0] := VERSION;
    PutBigEndian(payload, 1, 8, ToUnsigned(c.at));
    assert payload[0] == VERSION;
    PutBigEndian(payload, 9, 16, c.id);
    assert payload[..] == [payload[0]] + payload[1..9] + payload[9..25];
  }

  /** `k` bytes of `n` at `start`, least significant last. */
  method PutBigEndian(a: array<Byte>, start: nat, k: nat, n: nat)
    requires start + k <= a.Length
    modifies a
    ensures a[start..start + k] == BigEndian(n, k)
    ensures forall i | 0 <= i < a.Length && !(start <= i < start + k) :: a[i] == old(a[i])
  {
    var rest, i := n, k;
    while i > 0
      invariant 0 <= i <= k && rest >= 0
      invariant BigEndian(rest, i) + a[start + i..start + k] == BigEndian(n, k)
      invariant forall j | 0 <= j < a.Length && !(start <= j < start + k) :: a[j] == old(a[j])
    {
      i := i - 1;
      ghost var after := a[start + i + 1..start + k];
      a[start + i] := rest % 256;
      assert a[start + i..start + k] == [(rest % 256) as Byte] + after;
      rest := rest / 256;
    }
  }

  /** encodeMessageCursor of a receive time in nanoseconds; refuses ids that are not
      version 7 and times that are zero or outside years 1 to 9999. */
  function EncodeCursor(nanos: int, id: nat): Option<string> {
    var c := Cursor(Microseconds(nanos), id);
    if !Version7(id) || !ValidTime(c.at) then None else Some(Encode(Payload(c)))
  }

  datatype Decoded = Start | At(cursor: Cursor) | BadCursor

  function DecodeCursor(raw: string): Decoded {
    if raw == "" then Start
    else
      match Decode(raw, false)
      case None => BadCursor
      case Some(payload) =>
        if |payload| != PAYLOAD_BYTES || payload[0] != VERSION then BadCursor
        else
          var at := ToSigned(FromBigEndian(payload[1..9]));
          var id := FromBigEndian(payload[9..]);
          if !ValidTime(at) || !Version7(id) then BadCursor else At(Cursor(at, id))
  }

  lemma Pow256Values()
    ensures Pow256(8) == TWO_64
  {
    assert Pow256(4) == 0x1_0000_0000;
    assert Pow256(6) == 0x1_0000_0000_0000;
  }

  lemma PayloadParts(c: Cursor)
    requires ValidTime(c.at)
    ensures |Payload(c)| == PAYLOAD_BYTES && Payload(c)[0] == VERSION
    ensures Payload(c)[1..9] == BigEndian(ToUnsigned(c.at), 8) && Payload(c)[9..] == BigEndian(c.id, 16)
  {
  }

  /** Every accepted cursor decodes to its microsecond, negative times included,
      and its exact id; the empty string stands for the first page. */
  lemma CursorRoundTrip(nanos: int, id: nat)
    ensures EncodeCursor(nanos, id).Some? <==> Version7(id) && ValidTime(Microseconds(nanos))
    ensures EncodeCursor(nanos, id).Some? ==>
              DecodeCursor(EncodeCursor(nanos, id).value) == At(Cursor(Microseconds(nanos), id))
  {
    if EncodeCursor(nanos, id).Some? {
      var c := Cursor(Microseconds(nanos), id);
      DecodeEncode(Payload(c), false);
      PayloadParts(c);
      Pow256Values();
      BigEndianRoundTrip(ToUnsigned(c.at), 8);
      BigEndianRoundTrip(id, 16);
      assert |Encode(Payload(c))| == EncodedLength(25) == 34;
    }
  }

  /** A position on its way through the client: encoded, handed out, and decoded again. */
  function Travelled(c: Cursor): Decoded {
    match EncodeCursor(c.at * 1000, c.id)
    case None => BadCursor
    case Some(raw) => DecodeCursor(raw)
  }

  lemma TravelsUnchanged(c: Cursor)
    ensures Travelled(c) == if ValidTime(c.at) && Version7(c.id) then At(c) else BadCursor
  {
    assert Microseconds(c.at * 1000) == c.at;
    CursorRoundTrip(c.at * 1000, c.id);
  }

  // ----- what is accepted ------------------------------------------------------------

  /** What a cursor decodes to can be encoded, and comes back: the decoder accepts nothing
      outside the encoder's domain. */
  lemma DecodedCursorsEncode(raw: string)
    ensures DecodeCursor(raw).At? ==>
              var c := DecodeCursor(raw).cursor;
              && EncodeCursor(c.at * 1000, c.id).Some?
              && DecodeCursor(EncodeCursor(c.at * 1000, c.id).value) == At(c)
  {
    if DecodeCursor(raw).At? {
      var c := DecodeCursor(raw).cursor;
      assert Microseconds(c.at * 1000) == c.at;
      CursorRoundTrip(c.at * 1000, c.id);
    }
  }

  /** Days from 1 January of year 1 to 1 January of the given year. */
  function DaysBefore(year: nat): int
    requires year >= 1
  {
    var y := year - 1;
    365 * y + y / 4 - y / 100 + y / 400
  }

  /** Microseconds from the Unix epoch to the start of a year. */
  function StartOf(year: nat): int
    requires year >= 1
  {
    (DaysBefore(year) - DaysBefore(1970)) * 86_400_000_000
  }

  /** The encodable times are those after the zero time and before year 10000. */
  lemma TimesAreYears(at: int)
    ensures ValidTime(at) <==> StartOf(1) < at < StartOf(10000)
  {
    assert DaysBefore(1) == 0 && DaysBefore(1970) == 719162 && DaysBefore(10000) == 3652059;
  }

  lemma DivDiv(n: nat, m: nat)
    requires m > 0
    ensures n / 256 / m == n / (256 * m)
  {
    var q, r := n / 256 / m, n / 256 % m;
    assert n / 256 == m * q + r;
    assert n == 256 * (m * q + r) + n % 256;
    assert 256 * (m * q) == (256 * m) * q;
    assert 0 <= 256 * r + n % 256 < 256 * m;
    DivUnique(n, 256 * m, q, 256 * r + n % 256);
  }

  lemma DivUnique(n: nat, d: nat, q: nat, r: nat)
    requires d > 0 && n == d * q + r && r < d
    ensures n / d == q
  {
    var e := n / d - q;
    assert d * (n / d) + n % d == d * q + r;
    assert d * e == r - n % d;
    MultipleIsFar(d, e);
  }

  lemma MultipleIsFar(d: int, e: int)
    requires d > 0
    ensures e >= 1 ==> d * e >= d
    ensures e <= -1 ==> d * e <= -d
  {
  }

  /** Byte i of k is the digit of 256 to the power k - 1 - i. */
  lemma {:induction false} BigEndianDigit(n: nat, k: nat, i: nat)
    requires i < k
    ensures BigEndian(n, k)[i] == n / Pow256(k - 1 - i) % 256
    decreases k
  {
    if i < k - 1 {
      BigEndianDigit(n / 256, k - 1, i);
      DivDiv(n, Pow256(k - 2 - i));
    } else {
      assert Pow256(0) == 1;
    }
  }

  /** The version sits in bits 76 to 79 of the 128-bit id. */
  lemma VersionIsItsNibble(id: nat)
    ensures Version7(id) <==> id < Pow256(16) && id / Pow256(9) % 256 / 16 == 7
  {
    BigEndianDigit(id, 16, 6);
  }
}
