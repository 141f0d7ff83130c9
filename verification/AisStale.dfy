/** What an earlier message left in the buffer, and when it shows. The decoder of Messages 14 and 21 can read text
    behind the bits that were written for the message: lib/aisparser/ais_decoder.cpp, lines 79-122, 529-543, 622-658
    and 750-782. */
module AisStale {
  import opened Sequences
  import opened Wrappers
  import opened Bits
  import opened AisAlphabet
  import opened AisPayload
  import opened AisMessages

  // ----- text fields that reach behind the first `m` bits

  function CharsRead(n: nat): nat {
    if n / 6 > 64 then 64 else n / 6
  }

  /** The code of the k-th character of a text field. */
  function Code(b: seq<bool>, i: nat, k: nat): (v: nat)
    requires i + 6 * k + 6 <= |b|
    ensures v < 64
  {
    SixBitBound(b[i + 6 * k..i + 6 * k + 6]);
    FieldAt(b, i + 6 * k, 6)
  }

  /** All characters are inside the first `m` bits, or one that is inside of them is an '@'. */
  predicate StopsWithin(b: seq<bool>, m: nat, i: nat, n: nat)
    requires m <= |b|
  {
    i + 6 * CharsRead(n) <= m || exists k | 0 <= k < CharsRead(n) && i + 6 * k + 6 <= m :: Code(b, i, k) == 0
  }

  lemma TextChar(b: seq<bool>, i: nat, n: nat, k: nat)
    requires i + n <= |b| && k < CharsRead(n)
    ensures |SixBitText(TextField(b, i, n))| == CharsRead(n)
    ensures SixBitText(TextField(b, i, n))[k] == SixBitChar(Code(b, i, k))
  {
    var field := TextField(b, i, n);
    GroupAt(b, i, field, k);
  }

  lemma SameCode(b: seq<bool>, b': seq<bool>, m: nat, i: nat, k: nat)
    requires m <= |b| && m <= |b'| && b[..m] == b'[..m] && i + 6 * k + 6 <= m
    ensures Code(b, i, k) == Code(b', i, k)
  {
    PrefixSlice(b, m, i + 6 * k, i + 6 * k + 6);
    PrefixSlice(b', m, i + 6 * k, i + 6 * k + 6);
  }

  lemma {:induction false} BeforeAtPrefix(s: string, s': string, k: nat)
    requires k < |s| && k < |s'| && s[..k + 1] == s'[..k + 1] && s[k] == '@'
    ensures BeforeAt(s) == BeforeAt(s')
    decreases k
  {
    assert s[0] == s[..k + 1][0] && s'[0] == s'[..k + 1][0];
    assert s'[k] == s'[..k + 1][k] == s[..k + 1][k];
    if k > 0 {
      assert s[1..][..k] == s[..k + 1][1..] && s'[1..][..k] == s'[..k + 1][1..];
      BeforeAtPrefix(s[1..], s'[1..], k - 1);
    }
  }

  /** A text that stops within the bits two buffers share is the same in both. */
  lemma TextSettled(b: seq<bool>, b': seq<bool>, m: nat, i: nat, n: nat)
    requires m <= |b| && m <= |b'| && b[..m] == b'[..m] && i + n <= |b| && i + n <= |b'| && StopsWithin(b, m, i, n)
    ensures TextAt(b, i, n) == TextAt(b', i, n)
  {
    hide SixBitText, TextField, Code, TrimRight, BeforeAt;
    var c := CharsRead(n);
    var t, t' := SixBitText(TextField(b, i, n)), SixBitText(TextField(b', i, n));
    TextLength(b, i, n);
    TextLength(b', i, n);
    forall k | 0 <= k < c && i + 6 * k + 6 <= m
      ensures t[k] == t'[k]
    {
      TextChar(b, i, n, k);
      TextChar(b', i, n, k);
      SameCode(b, b', m, i, k);
    }
    if i + 6 * c <= m {
      assert t == t';
    } else {
      var k :| 0 <= k < c && i + 6 * k + 6 <= m && Code(b, i, k) == 0;
      TextChar(b, i, n, k);
      assert t[..k + 1] == t'[..k + 1];
      BeforeAtPrefix(t, t', k);
    }
  }

  lemma TextLength(b: seq<bool>, i: nat, n: nat)
    requires i + n <= |b|
    ensures |SixBitText(TextField(b, i, n))| == CharsRead(n)
  {
  }

  lemma LastBit(b: seq<bool>, i: nat, k: nat) returns (half: nat)
    requires i + 6 * k + 6 <= |b|
    ensures Code(b, i, k) == 2 * half + if b[i + 6 * k + 5] then 1 else 0
  {
    half := Value(b[i + 6 * k..i + 6 * k + 6][..5]);
  }

  lemma {:induction false} NoAt(s: string)
    requires forall k | 0 <= k < |s| :: s[k] != '@'
    ensures BeforeAt(s) == s
  {
    if s != [] { NoAt(s[1..]); }
  }

  lemma {:induction false} WholeBeforeAt(s: string)
    requires |BeforeAt(s)| == |s|
    ensures BeforeAt(s) == s
  {
    if s != [] { WholeBeforeAt(s[1..]); }
  }

  lemma WholeTrimmed(s: string)
    requires |TrimRight(s)| == |s|
    ensures TrimRight(s) == s
  {
  }

  /** Codes of characters that are neither '@' nor a space. */
  lemma OddChar(v: nat, half: nat)
    requires v < 64 && v == 2 * half + 1
    ensures SixBitChar(v) != '@' && !IsSpace(SixBitChar(v))
  {
  }

  lemma OtherChar(v: nat, v': nat)
    requires v < 64 && v' < 64
    ensures SixBitChar(v) == SixBitChar(v') <==> v == v'
    ensures SixBitChar(v) == '@' <==> v == 0
  {
  }

  /** All bits from the m-th up to the end of the characters read are the same. */
  ghost predicate Constant(b: seq<bool>, m: nat, end: nat, bit: bool) {
    end <= |b| && forall k | m <= k < end :: b[k] == bit
  }

  /** The text of a field that goes on behind the bits two buffers share, where one goes on with ones: none of its
      characters is cut off. */
  lemma TextGoesOn(b: seq<bool>, m: nat, i: nat, n: nat)
    requires m <= |b| && i + n <= |b| && i <= m && !StopsWithin(b, m, i, n)
    requires Constant(b, m, i + 6 * CharsRead(n), true)
    ensures TextAt(b, i, n) == SixBitText(TextField(b, i, n)) && |TextAt(b, i, n)| == CharsRead(n) > 0
  {
    hide SixBitText, TextField, Code;
    var c, t := CharsRead(n), SixBitText(TextField(b, i, n));
    TextLength(b, i, n);
    CharacterGoesOn(b, m, i, n, c - 1);
    forall k | 0 <= k < c
      ensures t[k] != '@'
    {
      CharacterGoesOn(b, m, i, n, k);
    }
    NoAt(t);
  }

  lemma CharacterGoesOn(b: seq<bool>, m: nat, i: nat, n: nat, k: nat)
    requires m <= |b| && i + n <= |b| && i <= m && !StopsWithin(b, m, i, n)
    requires Constant(b, m, i + 6 * CharsRead(n), true)
    requires k < CharsRead(n)
    ensures |SixBitText(TextField(b, i, n))| == CharsRead(n)
    ensures var ch := SixBitText(TextField(b, i, n))[k];
            ch != '@' && (k == CharsRead(n) - 1 ==> !IsSpace(ch))
  {
    hide SixBitText, TextField, Code, SixBitChar, IsSpace;
    TextChar(b, i, n, k);
    var half := LastBit(b, i, k);
    if i + 6 * k + 6 > m { OddChar(Code(b, i, k), half); } else { OtherChar(Code(b, i, k), 0); }
  }

  /** Two buffers that go on differently give different texts. */
  lemma TextUnsettled(b: seq<bool>, b': seq<bool>, m: nat, i: nat, n: nat)
    requires m <= |b| && m <= |b'| && b[..m] == b'[..m] && i + n <= |b| && i + n <= |b'|
    requires i <= m && !StopsWithin(b, m, i, n)
    requires Constant(b, m, i + 6 * CharsRead(n), false) && Constant(b', m, i + 6 * CharsRead(n), true)
    ensures TextAt(b, i, n) != TextAt(b', i, n) && !StopsWithin(b', m, i, n)
  {
    hide SixBitText, TextField, Code, SixBitChar, TrimRight, BeforeAt;
    var c := CharsRead(n);
    var t := SixBitText(TextField(b, i, n));
    forall k | 0 <= k < c && i + 6 * k + 6 <= m
      ensures Code(b', i, k) != 0
    {
      SameCode(b, b', m, i, k);
    }
    TextGoesOn(b', m, i, n);
    TextLength(b, i, n);
    if TextAt(b, i, n) == TextAt(b', i, n) {
      WholeBeforeAt(t);
      WholeTrimmed(BeforeAt(t));
      TextChar(b, i, n, c - 1);
      TextChar(b', i, n, c - 1);
      var half := LastBit(b, i, c - 1);
      var half' := LastBit(b', i, c - 1);
      OtherChar(Code(b, i, c - 1), Code(b', i, c - 1));
    }
  }

  // ----- reports

  /** The text of the message, if it has one that could go on behind its bits, stops within them. */
  predicate Stops(b: seq<bool>, m: nat, t: nat, size: int)
    requires m <= |b|
  {
    && (t == 14 && 40 < size < 1009 ==> StopsWithin(b, m, 40, size - 34))
    && (t == 21 && size > 272 ==> StopsWithin(b, m, 272, 88))
  }

  /** Whether the report of a message depends on nothing but the message. */
  predicate Settled(payload: string, fillBits: int)
    requires fillBits >= 0
  {
    var b := PlainBits(payload);
    Stops(b, 8 * FlushedBytes(|payload|), FieldAt(b, 0, 6), 6 * |payload| - fillBits)
  }

  ghost predicate Share(b: seq<bool>, b': seq<bool>, m: nat, size: int) {
    && size < m <= |b| && m <= |b'| && m % 64 == 0 && m > 0 && b[..m] == b'[..m]
    && Padded(b, size) && Padded(b', size)
  }

  lemma SharedField(b: seq<bool>, b': seq<bool>, m: nat, i: nat, n: nat)
    requires m <= |b| && m <= |b'| && b[..m] == b'[..m] && i + n <= m
    ensures FieldAt(b, i, n) == FieldAt(b', i, n)
    ensures n > 0 ==> SignedFieldAt(b, i, n) == SignedFieldAt(b', i, n)
    ensures TextAt(b, i, n) == TextAt(b', i, n)
  {
    hide FieldAt, SignedFieldAt, TextAt;
    FieldOfPrefix(b, m, i, n);
    FieldOfPrefix(b', m, i, n);
    TextOfPrefix(b, m, i, n);
    TextOfPrefix(b', m, i, n);
  }

  /** All fields inside the bits two buffers share. */
  lemma SharedFields(b: seq<bool>, b': seq<bool>, m: nat)
    requires m <= |b| && m <= |b'| && b[..m] == b'[..m]
    ensures forall i: nat, n: nat | i + n <= m :: FieldAt(b, i, n) == FieldAt(b', i, n)
    ensures forall i: nat, n: nat | 0 < n && i + n <= m :: SignedFieldAt(b, i, n) == SignedFieldAt(b', i, n)
    ensures forall i: nat, n: nat | i + n <= m :: TextAt(b, i, n) == TextAt(b', i, n)
  {
    hide FieldAt, SignedFieldAt, TextAt;
    forall i: nat, n: nat | i + n <= m
      ensures FieldAt(b, i, n) == FieldAt(b', i, n)
      ensures n > 0 ==> SignedFieldAt(b, i, n) == SignedFieldAt(b', i, n)
      ensures TextAt(b, i, n) == TextAt(b', i, n)
    {
      SharedField(b, b', m, i, n);
    }
  }

  /** A report whose text stops is the same for two buffers that share the bits of the message. */
  lemma BodySettled(b: seq<bool>, b': seq<bool>, m: nat, t: nat, size: int)
    requires Share(b, b', m, size) && Stops(b, m, t, size)
    ensures BodyOf(b, t, size) == BodyOf(b', t, size)
  {
    hide FieldAt, SignedFieldAt, TextAt, StopsWithin;
    if t == 14 && 40 < size < 1009 {
      TextSettled(b, b', m, 40, size - 34);
    } else if t == 21 && size > 272 {
      TextSettled(b, b', m, 272, 88);
    }
    SharedFields(b, b', m);
  }

  /** One whose text goes on is not. */
  lemma BodyUnsettled(b: seq<bool>, b': seq<bool>, m: nat, t: nat, size: int)
    requires Share(b, b', m, size) && !Stops(b, m, t, size)
    requires Constant(b, m, |b|, false) && Constant(b', m, |b'|, true)
    ensures BodyOf(b, t, size) != BodyOf(b', t, size)
  {
    hide FieldAt, SignedFieldAt, TextAt, StopsWithin;
    if t == 14 {
      TextUnsettled(b, b', m, 40, size - 34);
    } else {
      TextUnsettled(b, b', m, 272, 88);
      SharedField(b, b', m, 43, 120);
      SameEnd(TextAt(b, 43, 120), TextAt(b, 272, 88), TextAt(b', 272, 88));
    }
  }

  lemma SameEnd(a: string, b: string, c: string)
    requires b != c
    ensures a + b != a + c
  {
    assert (a + b)[|a|..] == b && (a + c)[|a|..] == c;
  }

  lemma SharedPayload(payload: string, bits: seq<bool>, fillBits: int)
    requires fillBits >= 0 && 8 * FlushedBytes(|payload|) <= |bits| && Padded(bits, 6 * |payload|)
    ensures Share(PlainBits(payload), Overwritten(bits, payload), 8 * FlushedBytes(|payload|), 6 * |payload| - fillBits)
    ensures FieldAt(PlainBits(payload), 0, 6) == FieldAt(Overwritten(bits, payload), 0, 6)
  {
    hide PaddedBits, FieldAt, SignedFieldAt, TextAt;
    var m := 8 * FlushedBytes(|payload|);
    assert PlainBits(payload)[..m] == PaddedBits(payload) == Overwritten(bits, payload)[..m];
    SharedField(PlainBits(payload), Overwritten(bits, payload), m, 0, 6);
  }

  /** A settled message means the same whatever the buffer held before. */
  lemma SettledReport(payload: string, fillBits: int, bits: seq<bool>)
    requires fillBits >= 0 && 8 * FlushedBytes(|payload|) <= |bits| && Padded(bits, 6 * |payload|)
    requires Settled(payload, fillBits)
    ensures ReportIn(Overwritten(bits, payload), payload, fillBits) == ReportOf(payload, fillBits)
  {
    hide FieldAt, BodyOf, Stops, PlainBits, Overwritten;
    var b := PlainBits(payload);
    SharedPayload(payload, bits, fillBits);
    BodySettled(b, Overwritten(bits, payload), 8 * FlushedBytes(|payload|), FieldAt(b, 0, 6), 6 * |payload| - fillBits);
  }

  /** Only messages with such a text are not settled. */
  lemma OtherReportSettled(payload: string, fillBits: int)
    requires fillBits >= 0
    ensures Settled(payload, fillBits)
            || (ReportOf(payload, fillBits).Success? && (ReportOf(payload, fillBits).value.Type14?
                                                         || ReportOf(payload, fillBits).value.Type21?))
  {
    hide FieldAt, SignedFieldAt, TextAt, StopsWithin, PlainBits;
  }

  function Ones(n: nat): (b: seq<bool>)
    ensures |b| == n
  {
    seq(n, _ => true)
  }

  /** Any other message does not: behind a buffer full of ones it is reported differently. */
  lemma UnsettledReport(payload: string, fillBits: int, n: nat)
    requires fillBits >= 0 && 8 * FlushedBytes(|payload|) <= n && Padded(Ones(n), 6 * |payload|)
    requires !Settled(payload, fillBits)
    ensures ReportIn(Overwritten(Ones(n), payload), payload, fillBits) != ReportOf(payload, fillBits)
  {
    hide FieldAt, BodyOf, PaddedBits, StopsWithin;
    var b, b', m := PlainBits(payload), Overwritten(Ones(n), payload), 8 * FlushedBytes(|payload|);
    SharedPayload(payload, Ones(n), fillBits);
    assert Constant(b, m, |b|, false);
    assert Constant(b', m, |b'|, true);
    BodyUnsettled(b, b', m, FieldAt(b, 0, 6), 6 * |payload| - fillBits);
  }

  /** The report of a message depends on nothing but the message exactly if it is settled. */
  lemma SettledExactly(payload: string, fillBits: int)
    requires 0 < |payload| <= 410 && fillBits >= 0
    ensures Settled(payload, fillBits) <==>
              forall bits: seq<bool> | |bits| == 8 * BUFFER_SIZE ::
                ReportIn(Overwritten(bits, payload), payload, fillBits) == ReportOf(payload, fillBits)
  {
    hide ReportOf, ReportIn, Settled, Overwritten;
    if Settled(payload, fillBits) {
      forall bits: seq<bool> | |bits| == 8 * BUFFER_SIZE
        ensures ReportIn(Overwritten(bits, payload), payload, fillBits) == ReportOf(payload, fillBits)
      {
        SettledReport(payload, fillBits, bits);
      }
    } else {
      UnsettledReport(payload, fillBits, 8 * BUFFER_SIZE);
    }
  }

  // ----- how long such messages are

  lemma PlainZeros(payload: string, k: nat)
    requires 6 * |payload| <= k < |PlainBits(payload)|
    ensures !PlainBits(payload)[k]
  {
  }

  lemma ZeroCode(b: seq<bool>, i: nat, k: nat)
    requires i + 6 * k + 6 <= |b| && forall j | i + 6 * k <= j < i + 6 * k + 6 :: !b[j]
    ensures Code(b, i, k) == 0
  {
    assert b[i + 6 * k..i + 6 * k + 6] == Zeros(6);
    ValueZeros(6);
  }

  lemma LongText(n: nat, fillBits: nat)
    requires 40 < 6 * n - fillBits < 1009 && 40 + 6 * CharsRead(6 * n - fillBits - 34) > 8 * FlushedBytes(n)
    ensures (n == 21 || n == 53) && fillBits <= 2
  {
  }

  lemma LongExtension(n: nat, fillBits: nat)
    requires 6 * n - fillBits > 272 && 272 + 6 * CharsRead(88) > 8 * FlushedBytes(n)
    ensures 46 <= n <= 53 && FlushedBytes(n) == 40 && CharsRead(88) == 14
  {
  }

  /** Only two lengths of Message 14 and one of Message 21 let the text go on behind the last word. */
  lemma UnsettledLengths(payload: string, fillBits: int)
    requires fillBits >= 0 && !Settled(payload, fillBits)
    ensures var t := FieldAt(PlainBits(payload), 0, 6);
            || (t == 14 && (|payload| == 21 || |payload| == 53) && fillBits <= 2)
            || (t == 21 && |payload| == 53)
  {
    hide FieldAt, PlainBits, Code, FlushedBytes;
    var b, n := PlainBits(payload), |payload|;
    if FieldAt(b, 0, 6) == 14 {
      LongText(n, fillBits);
    } else {
      LongExtension(n, fillBits);
      if n < 53 {
        forall j | 314 <= j < 320
          ensures !b[j]
        {
          PlainZeros(payload, j);
        }
        ZeroCode(b, 272, 7);
      }
    }
  }

  /** A message of the type with that armoured character, all other bits of which are ones. */
  function Filled(c: char, n: nat): string {
    [c] + seq(n, _ => 'w')
  }

  lemma {:induction false} AllOnes(n: nat)
    ensures Dearmoured(seq(n, _ => 'w')) == Ones(6 * n)
  {
    if n > 0 {
      var s := seq(n, _ => 'w');
      assert s[1..] == seq(n - 1, _ => 'w');
      AllOnes(n - 1);
      assert BitsOf(63, 6) == Ones(6) by { ValueOnes(); ValueInjective(BitsOf(63, 6), Ones(6)); }
    }
  }

  lemma ValueOnes()
    ensures Value(Ones(6)) == 63 && Value(BitsOf(63, 6)) == 63
  {
    assert Pow2(6) == 64;
    ValueBitsOf(63, 6);
    forall k: nat | k < 6
      ensures Value(Ones(k + 1)) == 2 * Value(Ones(k)) + 1
    {
      assert Ones(k + 1)[..k] == Ones(k);
    }
    assert Value(Ones(1)) == 1 && Value(Ones(2)) == 3 && Value(Ones(3)) == 7;
    assert Value(Ones(4)) == 15 && Value(Ones(5)) == 31;
  }

  lemma FilledBits(c: char, n: nat)
    ensures FieldAt(PlainBits(Filled(c, n)), 0, 6) == Dearmour(c)
    ensures forall j | 6 <= j < 6 + 6 * n :: PlainBits(Filled(c, n))[j]
  {
    hide BitsOf;
    var s := Filled(c, n);
    AllOnes(n);
    assert s[1..] == seq(n, _ => 'w');
    assert Dearmoured(s) == BitsOf(Dearmour(c), 6) + Ones(6 * n);
    var b := PlainBits(s);
    assert b[..6] == BitsOf(Dearmour(c), 6) && b[0..6] == b[..6];
    assert Pow2(6) == 64;
    ValueBitsOf(Dearmour(c), 6);
    forall j | 6 <= j < 6 + 6 * n
      ensures b[j]
    {
      assert b[j] == Dearmoured(s)[j] == Ones(6 * n)[j - 6];
    }
  }

  lemma OnesGoOn(b: seq<bool>, end: nat, m: nat, i: nat, n: nat)
    requires 6 <= i && m <= |b| && end <= |b| && m < i + 6 * CharsRead(n) && forall j | 6 <= j < end :: b[j]
    requires forall k | 0 <= k < CharsRead(n) && i + 6 * k + 6 <= m :: i + 6 * k < end
    ensures !StopsWithin(b, m, i, n)
  {
    hide Code;
    forall k | 0 <= k < CharsRead(n) && i + 6 * k + 6 <= m
      ensures Code(b, i, k) != 0
    {
      FirstBit(b, i, k);
    }
  }

  lemma FirstBit(b: seq<bool>, i: nat, k: nat)
    requires i + 6 * k + 6 <= |b| && b[i + 6 * k]
    ensures Code(b, i, k) != 0
  {
    var field := b[i + 6 * k..i + 6 * k + 6];
    assert field[0] && !Zeros(6)[0];
    ValueZeros(6);
    if Value(field) == 0 { ValueInjective(field, Zeros(6)); }
  }

  /** There are such messages of each of these lengths. */
  lemma UnsettledMessages()
    ensures !Settled(Filled('>', 20), 0) && !Settled(Filled('>', 52), 0) && !Settled(Filled('E', 52), 0)
  {
    hide StopsWithin, FieldAt, PlainBits, Filled;
    LengthFilled();
    FilledBits('>', 20);
    OnesGoOn(PlainBits(Filled('>', 20)), 126, 128, 40, 92);
    FilledBits('>', 52);
    OnesGoOn(PlainBits(Filled('>', 52)), 318, 320, 40, 284);
    FilledBits('E', 52);
    OnesGoOn(PlainBits(Filled('E', 52)), 318, 320, 272, 88);
  }

  lemma LengthFilled()
    ensures |Filled('>', 20)| == 21 && |Filled('>', 52)| == 53 && |Filled('E', 52)| == 53
  {
  }
}
