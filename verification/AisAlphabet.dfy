/** The two character codes of AIS: the six-bit text alphabet and the payload armour. */
module AisAlphabet {
  import opened Bits
  import opened Wrappers

  /** A C string: no NUL before its end. */
  type CString = s: string | '\0' !in s

  // The alphabet as both halves of the program spell it, row by row.
  const CAPITALS := "@ABCDEFGHIJKLMNO"
  const LATIN := "PQRSTUVWXYZ[\\]^_"
  const MARKS := " !\"#$%&'()*+,-./"
  const DIGITS := "0123456789:;<=>?"
  const ASCII_CHARS: string := CAPITALS + LATIN + MARKS + DIGITS

  /** The character of a six-bit code, `ASCII_CHARS[v]` (lemma AlphabetTable). */
  function SixBitChar(v: nat): char
    requires v < 64
  {
    if v < 32 then (v + 64) as char else v as char
  }

  /** What `strchr` on the alphabet finds: the code of `c`, if it has one. */
  function SixBitCode(c: char): (r: Option<nat>)
    ensures r.Some? ==> r.value < 64
  {
    if '@' <= c <= '_' then Some(c as nat - 64)
    else if ' ' <= c <= '?' then Some(c as nat)
    else None
  }

  lemma AlphabetRow(row: string, base: nat, k: nat)
    requires (row, base) in {(CAPITALS, 64), (LATIN, 80), (MARKS, 32), (DIGITS, 48)} && k < 16
    ensures |row| == 16 && row[k] as nat == base + k
  {
  }

  lemma AlphabetTable(v: nat)
    requires v < 64
    ensures |ASCII_CHARS| == 64 && SixBitChar(v) == ASCII_CHARS[v]
  {
    if v < 16 {
      AlphabetRow(CAPITALS, 64, v);
    } else if v < 32 {
      AlphabetRow(LATIN, 80, v - 16);
    } else if v < 48 {
      AlphabetRow(MARKS, 32, v - 32);
    } else {
      AlphabetRow(DIGITS, 48, v - 48);
    }
  }

  /** The code is the position of the character in the table, and only table characters have one. */
  lemma SixBitInverse(c: char)
    ensures SixBitCode(c).Some? <==> c in ASCII_CHARS
    ensures SixBitCode(c).Some? ==> SixBitChar(SixBitCode(c).value) == c
    ensures forall v: nat | v < 64 :: SixBitCode(SixBitChar(v)) == Some(v)
  {
    match SixBitCode(c) {
      case Some(v) => AlphabetTable(v);
      case None =>
        if c in ASCII_CHARS {
          var i :| 0 <= i < |ASCII_CHARS| && ASCII_CHARS[i] == c;
          AlphabetTable(0);
          AlphabetTable(i);
        }
    }
  }

  /** The `i`-th six-bit group of a bit string. */
  function Group(b: seq<bool>, i: nat): (v: nat)
    requires i < |b| / 6
    ensures v < 64
  {
    SixBitBound(b[6 * i..6 * i + 6]);
    Value(b[6 * i..6 * i + 6])
  }

  lemma SixBitBound(b: seq<bool>)
    requires |b| == 6
    ensures Value(b) < 64
  {
    ValueBound(b);
    assert Pow2(6) == 64;
  }

  lemma GroupCons(b: seq<bool>, rest: seq<bool>, i: nat)
    requires |b| == 6 && i <= |rest| / 6
    ensures Group(b + rest, 0) == Value(b)
    ensures i < |rest| / 6 ==> Group(b + rest, i + 1) == Group(rest, i)
  {
    assert (b + rest)[..6] == b;
    if i < |rest| / 6 {
      assert (b + rest)[6 * (i + 1)..6 * (i + 1) + 6] == rest[6 * i..6 * i + 6];
    }
  }

  // ----- payload armour

  /** The printable character of a six-bit value. */
  function Armour(v: nat): (c: char)
    requires v < 64
  {
    if v < 40 then (v + 48) as char else (v + 56) as char
  }

  /** The de-armouring table of the decoder: 0 for every character that is not armour. */
  function Dearmour(c: char): (v: nat)
    ensures v < 64
  {
    if '0' <= c <= 'X' then c as nat - 48
    else if 'Y' <= c <= 'w' then c as nat - 56
    else 0
  }

  // The characters of the armour, in the order of their values.
  const ARMOUR_DIGITS := "0123456789:;<=>?"
  const ARMOUR_CAPITALS := "@ABCDEFGHIJKLMNO"
  const ARMOUR_MORE := "PQRSTUVW"
  const ARMOUR_SMALL := "`abcdefghijklmno"
  const ARMOUR_LAST := "pqrstuvw"
  const ARMOUR: string := ARMOUR_DIGITS + ARMOUR_CAPITALS + ARMOUR_MORE + ARMOUR_SMALL + ARMOUR_LAST

  lemma ArmourTable(v: nat)
    requires v < 64
    ensures |ARMOUR| == 64 && Armour(v) == ARMOUR[v]
  {
    if v < 16 {
      ArmourRow(ARMOUR_DIGITS, 48, v);
    } else if v < 32 {
      ArmourRow(ARMOUR_CAPITALS, 64, v - 16);
    } else if v < 40 {
      ArmourRow(ARMOUR_MORE, 80, v - 32);
    } else if v < 56 {
      ArmourRow(ARMOUR_SMALL, 96, v - 40);
    } else {
      ArmourRow(ARMOUR_LAST, 112, v - 56);
    }
  }

  lemma ArmourRow(row: string, base: nat, k: nat)
    requires (row, base) in {(ARMOUR_DIGITS, 48), (ARMOUR_CAPITALS, 64), (ARMOUR_MORE, 80), (ARMOUR_SMALL, 96),
                             (ARMOUR_LAST, 112)}
    requires k < |row|
    ensures row[k] as nat == base + k
  {
  }

  function Armoured(b: seq<bool>): (s: string)
    ensures |s| == |b| / 6
  {
    seq(|b| / 6, i requires 0 <= i < |b| / 6 => Armour(Group(b, i)))
  }

  /** The bits a payload carries. */
  function Dearmoured(s: string): (b: seq<bool>)
    ensures |b| == 6 * |s|
  {
    if s == [] then [] else BitsOf(Dearmour(s[0]), 6) + Dearmoured(s[1..])
  }

  lemma {:induction false} DearmouredAppend(s: string, t: string)
    ensures Dearmoured(s + t) == Dearmoured(s) + Dearmoured(t)
  {
    if s == [] {
      assert s + t == t;
    } else {
      assert (s + t)[1..] == s[1..] + t;
      DearmouredAppend(s[1..], t);
    }
  }

  lemma DearmourArmour(v: nat)
    requires v < 64
    ensures Dearmour(Armour(v)) == v
  {
  }

  /** De-armouring undoes armouring, but for a tail that does not fill a character. */
  lemma {:induction false} ArmourRoundTrip(b: seq<bool>)
    ensures Dearmoured(Armoured(b)) == b[..6 * (|b| / 6)]
  {
    if |b| >= 6 {
      var head, rest := b[..6], b[6..];
      assert b == head + rest;
      ArmourRoundTrip(rest);
      GroupCons(head, rest, 0);
      forall i | 0 <= i < |rest| / 6
        ensures Armoured(b)[i + 1] == Armoured(rest)[i]
      {
        GroupCons(head, rest, i);
      }
      assert Armoured(b)[1..] == Armoured(rest);
      DearmourArmour(Value(head));
      BitsOfValue(head);
      assert head + rest[..6 * (|rest| / 6)] == b[..6 * (|b| / 6)];
    }
  }

  /** An armoured payload holds no NMEA 0183 delimiter. */
  lemma ArmouredChars(b: seq<bool>)
    ensures forall c | c in Armoured(b) :: '0' <= c <= 'w'
  {
  }

  // ----- six-bit text

  /** One text field of so many characters, filled up with '@'. */
  function TextBits(t: string, chars: nat): (b: seq<bool>)
    ensures |b| == 6 * chars
  {
    if chars == 0 then []
    else if t == [] then Zeros(6) + TextBits(t, chars - 1)
    else BitsOf(CodeOrAt(t[0]), 6) + TextBits(t[1..], chars - 1)
  }

  /** A character outside the alphabet is sent as '@'. */
  function CodeOrAt(c: char): (v: nat)
    ensures v < 64
  {
    match SixBitCode(c)
    case Some(v) => v
    case None => 0
  }

  /** The characters of a text field. */
  function SixBitText(b: seq<bool>): (s: string)
    ensures |s| == |b| / 6
  {
    seq(|b| / 6, i requires 0 <= i < |b| / 6 => SixBitChar(Group(b, i)))
  }

  /** The text before the first '@'. */
  function BeforeAt(s: string): (r: string)
    ensures |r| <= |s|
  {
    if s == [] || s[0] == '@' then [] else [s[0]] + BeforeAt(s[1..])
  }

  predicate IsSpace(c: char) {
    c == ' ' || c == '\t' || c == '\n' || c == '\r'
  }

  function TrimRight(s: string): (r: string)
    ensures |r| <= |s|
  {
    if s != [] && IsSpace(s[|s| - 1]) then TrimRight(s[..|s| - 1]) else s
  }

  function CleanText(s: string): string {
    TrimRight(BeforeAt(s))
  }

  /** The part of a text that survives transmission: cut at the first '@' or character outside
      the alphabet, trailing spaces removed. */
  function Sendable(t: string): (r: string)
    ensures |r| <= |t|
  {
    if t == [] || t[0] == '@' || SixBitCode(t[0]).None? then [] else [t[0]] + Sendable(t[1..])
  }

  function Cut(t: string, chars: nat): string {
    if |t| <= chars then t else t[..chars]
  }

  function NormalText(t: string, chars: nat): string {
    TrimRight(Sendable(Cut(t, chars)))
  }

  lemma SixBitTextCons(v: nat, rest: seq<bool>)
    requires v < 64
    ensures SixBitText(BitsOf(v, 6) + rest) == [SixBitChar(v)] + SixBitText(rest)
  {
    assert Pow2(6) == 64;
    ValueBitsOf(v, 6);
    GroupCons(BitsOf(v, 6), rest, 0);
    var s := SixBitText(BitsOf(v, 6) + rest);
    forall i | 0 <= i < |rest| / 6
      ensures s[i + 1] == SixBitText(rest)[i]
    {
      GroupCons(BitsOf(v, 6), rest, i);
    }
    assert s == [s[0]] + s[1..];
    assert s[1..] == SixBitText(rest);
  }

  /** Up to the first '@', a text comes back as far as the alphabet allows. */
  lemma {:induction false} TextBeforeAt(t: string, chars: nat)
    ensures BeforeAt(SixBitText(TextBits(t, chars))) == Sendable(Cut(t, chars))
  {
    if t == [] {
      FillerIsAt(chars);
    } else if chars > 0 {
      var rest, cut := SixBitText(TextBits(t[1..], chars - 1)), Cut(t[1..], chars - 1);
      SixBitTextCons(CodeOrAt(t[0]), TextBits(t[1..], chars - 1));
      TextBeforeAt(t[1..], chars - 1);
      BeforeAtCons(t[0], rest, cut);
      CutCons(t, chars);
    }
  }

  lemma FillerIsAt(chars: nat)
    ensures BeforeAt(SixBitText(TextBits([], chars))) == []
  {
    if chars > 0 {
      ZeroCode();
      SixBitTextCons(0, TextBits([], chars - 1));
    }
  }

  lemma CutCons(t: string, chars: nat)
    requires t != [] && chars > 0
    ensures Cut(t, chars) == [t[0]] + Cut(t[1..], chars - 1)
  {
  }

  lemma BeforeAtCons(c: char, rest: string, cut: string)
    requires BeforeAt(rest) == Sendable(cut)
    ensures BeforeAt([SixBitChar(CodeOrAt(c))] + rest) == Sendable([c] + cut)
  {
    SixBitInverse(c);
    var s, t := [SixBitChar(CodeOrAt(c))] + rest, [c] + cut;
    assert s[1..] == rest && t[1..] == cut;
  }

  lemma ZeroCode()
    ensures Zeros(6) == BitsOf(0, 6)
  {
    assert Pow2(6) == 64;
    ValueZeros(6);
    ValueBitsOf(0, 6);
    ValueInjective(Zeros(6), BitsOf(0, 6));
  }

  /** Every text comes back normalised, whatever its length and characters. */
  lemma TextRoundTrip(t: string, chars: nat)
    ensures CleanText(SixBitText(TextBits(t, chars))) == NormalText(t, chars)
  {
    TextBeforeAt(t, chars);
  }

  /** What the normal form of a text is: its longest beginning that can be sent, as far as there
      is room for it, without the spaces at its end. */
  lemma NormalTextMeaning(t: string, chars: nat)
    ensures var r := NormalText(t, chars);
            var s := Sendable(Cut(t, chars));
            && |r| <= |s| <= chars && s <= t && r <= s
            && (forall i | 0 <= i < |s| :: SixBitCode(s[i]).Some? && s[i] != '@')
            && (|s| == chars || |s| == |t| || t[|s|] == '@' || SixBitCode(t[|s|]).None?)
            && (r != [] ==> r[|r| - 1] != ' ')
            && (forall i | |r| <= i < |s| :: s[i] == ' ')
  {
    SendableMeaning(Cut(t, chars));
    TrimRightMeaning(Sendable(Cut(t, chars)));
  }

  lemma {:induction false} SendableMeaning(t: string)
    ensures var s := Sendable(t);
            && s <= t && (forall i | 0 <= i < |s| :: SixBitCode(s[i]).Some? && s[i] != '@')
            && (|s| == |t| || t[|s|] == '@' || SixBitCode(t[|s|]).None?)
  {
    if t != [] { SendableMeaning(t[1..]); }
  }

  lemma {:induction false} TrimRightMeaning(s: string)
    ensures var r := TrimRight(s);
            r <= s && (r != [] ==> !IsSpace(r[|r| - 1])) && (forall i | |r| <= i < |s| :: IsSpace(s[i]))
  {
    if s != [] && IsSpace(s[|s| - 1]) { TrimRightMeaning(s[..|s| - 1]); }
  }
}
