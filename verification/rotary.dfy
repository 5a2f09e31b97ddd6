/**
 * The rotary-encoder log of the SPRA lane: each line read from the serial
 * port loses its last two bytes, is decoded as text (a failed decode reads
 * as "0 0 0"), and the numbers in it are extracted with
 * `re.findall(r'([\d.]*\d+)', text)` and joined with single spaces.
 *
 * Digits are the ASCII digits; the decoder is a parameter.
 */
module Rotary {
  import opened Outcomes
  import opened Strings
  import opened Decimal
  import opened Logs

  newtype Byte = b: int | 0 <= b < 256

  // ---------------------------------------------------------------------------
  // Dropping the line end

  /** Where a Python slice with stop `stop` ends on a sequence of length `len`. */
  function SliceStop(stop: int, len: nat): (e: nat)
    ensures e <= len
    ensures 0 <= stop <= len ==> e == stop
    ensures stop < 0 ==> e == if stop + len < 0 then 0 else stop + len
  {
    if stop < 0 then (if stop + len < 0 then 0 else stop + len)
    else if stop > len then len
    else stop
  }

  /** `item[0:len(item) - 2]`. */
  function StripLineEnd(raw: seq<Byte>): (r: seq<Byte>)
    ensures |raw| <= 2 ==> r == []
    ensures |raw| > 2 ==> r == raw[..|raw| - 2]
  {
    raw[..SliceStop(|raw| - 2, |raw|)]
  }

  // ---------------------------------------------------------------------------
  // re.findall(r'([\d.]*\d+)', text)

  predicate IsNumChar(c: char)
  {
    IsDigit(c) || c == '.'
  }

  /** What the pattern can return: digits and dots, ending in a digit. */
  predicate IsToken(t: string)
  {
    |t| > 0 && (forall i :: 0 <= i < |t| ==> IsNumChar(t[i])) && IsDigit(t[|t| - 1])
  }

  /** The end of the longest run of digits and dots starting at `p`. */
  function RunEnd(s: string, p: nat): (e: nat)
    requires p <= |s|
    ensures p <= e <= |s|
    ensures forall i :: p <= i < e ==> IsNumChar(s[i])
    ensures e == |s| || !IsNumChar(s[e])
    decreases |s| - p
  {
    if p == |s| || !IsNumChar(s[p]) then p else RunEnd(s, p + 1)
  }

  /** The position just past the last digit in `s[p..q]`, if it has one. */
  function LastDigitEnd(s: string, p: nat, q: nat): (r: Option<nat>)
    requires p <= q <= |s|
    ensures r.None? <==> forall i :: p <= i < q ==> !IsDigit(s[i])
    ensures r.Some? ==>
              && p < r.value <= q
              && IsDigit(s[r.value - 1])
              && forall i :: r.value <= i < q ==> !IsDigit(s[i])
    decreases q - p
  {
    if q == p then None
    else if IsDigit(s[q - 1]) then Some(q)
    else LastDigitEnd(s, p, q - 1)
  }

  /**
   * The matches found scanning from `p`: at each position the greedy
   * `[\d.]*` backs off to the last digit of the run of digits and dots there,
   * and `\d+` ends with it; where that run holds no digit, the scan moves on
   * by one character.
   */
  function FindAllFrom(s: string, p: nat): (ts: seq<string>)
    requires p <= |s|
    ensures forall i :: 0 <= i < |ts| ==> IsToken(ts[i])
    decreases |s| - p
  {
    if p == |s| then []
    else
      match LastDigitEnd(s, p, RunEnd(s, p))
      case None => FindAllFrom(s, p + 1)
      case Some(e) => [s[p..e]] + FindAllFrom(s, e)
  }

  function FindAll(s: string): (ts: seq<string>)
    ensures forall i :: 0 <= i < |ts| ==> IsToken(ts[i])
  {
    FindAllFrom(s, 0)
  }

  // ---------------------------------------------------------------------------
  // The tokens described run by run

  predicate HasDigit(t: string)
  {
    exists i :: 0 <= i < |t| && IsDigit(t[i])
  }

  function StripTrailingDots(t: string): string
  {
    if |t| > 0 && t[|t| - 1] == '.' then StripTrailingDots(t[..|t| - 1]) else t
  }

  /**
   * Every maximal run of digits and dots from `p` on that contains a digit,
   * with its trailing dots removed, in order.
   */
  function NumberRunsFrom(s: string, p: nat): seq<string>
    requires p <= |s|
    decreases |s| - p
  {
    if p == |s| then []
    else if !IsNumChar(s[p]) then NumberRunsFrom(s, p + 1)
    else
      var e := RunEnd(s, p);
      var run := s[p..e];
      (if HasDigit(run) then [StripTrailingDots(run)] else []) + NumberRunsFrom(s, e)
  }

  /** The run end is the first position that is not a digit or dot. */
  lemma RunEndIs(s: string, p: nat, e: nat)
    requires p <= e <= |s|
    requires forall i :: p <= i < e ==> IsNumChar(s[i])
    requires e == |s| || !IsNumChar(s[e])
    ensures RunEnd(s, p) == e
  {
  }

  /** Dots with no digit after them up to the run end yield no match. */
  lemma {:induction false} SkipDots(s: string, q: nat, e: nat)
    requires q <= e <= |s|
    requires forall i :: q <= i < e ==> s[i] == '.'
    requires e == |s| || !IsNumChar(s[e])
    ensures FindAllFrom(s, q) == FindAllFrom(s, e)
    decreases e - q
  {
    if q < e {
      RunEndIs(s, q, e);
      assert LastDigitEnd(s, q, e).None?;
      SkipDots(s, q + 1, e);
    }
  }

  /** Removing dots after a text that does not end in a dot leaves that text. */
  lemma {:induction false} StripDotsAfter(u: string, v: string)
    requires |u| > 0 && u[|u| - 1] != '.'
    requires forall i :: 0 <= i < |v| ==> v[i] == '.'
    ensures StripTrailingDots(u + v) == u
    decreases |v|
  {
    if |v| == 0 {
      assert u + v == u;
    } else {
      assert (u + v)[..|u + v| - 1] == u + v[..|v| - 1];
      StripDotsAfter(u, v[..|v| - 1]);
    }
  }

  /** The scan's matches are the digit-bearing runs without their trailing dots. */
  lemma {:induction false} FindAllIsNumberRuns(s: string, p: nat)
    requires p <= |s|
    ensures FindAllFrom(s, p) == NumberRunsFrom(s, p)
    decreases |s| - p
  {
    if p < |s| {
      if !IsNumChar(s[p]) {
        FindAllIsNumberRuns(s, p + 1);
      } else {
        var e' := RunEnd(s, p);
        if LastDigitEnd(s, p, e').None? {
          DotRunStep(s, p);
        } else {
          DigitRunStep(s, p, LastDigitEnd(s, p, e').value, e');
        }
        FindAllIsNumberRuns(s, e');
      }
    }
  }

  /** A run of dots alone: both the scan and the run description skip it. */
  lemma DotRunStep(s: string, p: nat)
    requires p < |s| && IsNumChar(s[p])
    requires LastDigitEnd(s, p, RunEnd(s, p)).None?
    ensures FindAllFrom(s, p) == FindAllFrom(s, RunEnd(s, p))
    ensures NumberRunsFrom(s, p) == NumberRunsFrom(s, RunEnd(s, p))
  {
    var e' := RunEnd(s, p);
    assert !HasDigit(s[p..e']);
    SkipDots(s, p + 1, e');
  }

  /** A run with a digit: the scan's match is the run without its trailing dots. */
  lemma DigitRunStep(s: string, p: nat, e: nat, e': nat)
    requires p < |s| && IsNumChar(s[p])
    requires e' == RunEnd(s, p) && LastDigitEnd(s, p, e') == Some(e)
    ensures FindAllFrom(s, p) == [s[p..e]] + FindAllFrom(s, e')
    ensures NumberRunsFrom(s, p) == [s[p..e]] + NumberRunsFrom(s, e')
  {
    assert FindAllFrom(s, p) == [s[p..e]] + FindAllFrom(s, e);
    SkipDots(s, e, e');
    RunStripsToLastDigit(s, p, e, e');
    assert NumberRunsFrom(s, p) == [StripTrailingDots(s[p..e'])] + NumberRunsFrom(s, e');
  }

  /** The run `s[p..e']` whose last digit ends at `e` holds a digit and strips to `s[p..e]`. */
  lemma RunStripsToLastDigit(s: string, p: nat, e: nat, e': nat)
    requires p < e <= e' <= |s| && IsDigit(s[e - 1])
    requires forall i :: e <= i < e' ==> IsNumChar(s[i]) && !IsDigit(s[i])
    ensures HasDigit(s[p..e'])
    ensures StripTrailingDots(s[p..e']) == s[p..e]
  {
    var run := s[p..e'];
    assert run[e - 1 - p] == s[e - 1];
    assert run == s[p..e] + s[e..e'];
    StripDotsAfter(s[p..e], s[e..e']);
  }

  // ---------------------------------------------------------------------------
  // No digit is lost or invented

  function Digits(t: string): string
  {
    if |t| == 0 then "" else (if IsDigit(t[0]) then [t[0]] else "") + Digits(t[1..])
  }

  lemma {:induction false} DigitsAppend(a: string, b: string)
    ensures Digits(a + b) == Digits(a) + Digits(b)
  {
    if |a| == 0 {
      assert a + b == b;
    } else {
      var ab := a + b;
      var head := if IsDigit(a[0]) then [a[0]] else "";
      assert ab[0] == a[0];
      assert ab[1..] == a[1..] + b;
      assert Digits(ab) == head + Digits(a[1..] + b);
      assert Digits(a) == head + Digits(a[1..]);
      DigitsAppend(a[1..], b);
      assert head + (Digits(a[1..]) + Digits(b)) == (head + Digits(a[1..])) + Digits(b);
    }
  }

  function Flatten(ts: seq<string>): string
  {
    if |ts| == 0 then "" else ts[0] + Flatten(ts[1..])
  }

  /** The matches from `p` on, run together, hold the digits of `s[p..]` in order. */
  lemma {:induction false} FindAllKeepsDigits(s: string, p: nat)
    requires p <= |s|
    ensures Digits(Flatten(FindAllFrom(s, p))) == Digits(s[p..])
    decreases |s| - p
  {
    if p < |s| {
      var e' := RunEnd(s, p);
      assert s[p..] == [s[p]] + s[p + 1..];
      match LastDigitEnd(s, p, e')
      case None =>
        assert !IsDigit(s[p]);
        FindAllKeepsDigits(s, p + 1);
      case Some(e) =>
        FindAllKeepsDigits(s, e);
        KeepsDigitsStep(s, p, e, FindAllFrom(s, p), FindAllFrom(s, e));
    }
  }

  /** One match followed by matches that keep the digits of the rest keeps the digits from `p`. */
  lemma KeepsDigitsStep(s: string, p: nat, e: nat, ts: seq<string>, rest: seq<string>)
    requires p <= e <= |s|
    requires ts == [s[p..e]] + rest
    requires Digits(Flatten(rest)) == Digits(s[e..])
    ensures Digits(Flatten(ts)) == Digits(s[p..])
  {
    assert ts[1..] == rest;
    DigitsAppend(s[p..e], Flatten(rest));
    assert s[p..] == s[p..e] + s[e..];
    DigitsAppend(s[p..e], s[e..]);
  }

  /** Joining with spaces adds no digits. */
  lemma {:induction false} DigitsJoin(ts: seq<string>)
    ensures Digits(Join(ts, " ")) == Digits(Flatten(ts))
  {
    if |ts| == 1 {
      assert Flatten(ts) == ts[0] + Flatten(ts[1..]);
      assert ts[0] + "" == ts[0];
    } else if |ts| > 1 {
      DigitsJoin(ts[1..]);
      DigitsAppend(ts[0] + " ", Join(ts[1..], " "));
      DigitsAppend(ts[0], " ");
      DigitsAppend(ts[0], Flatten(ts[1..]));
      assert Digits(" ") == "" by {
        assert " "[1..] == "";
      }
    }
  }

  // ---------------------------------------------------------------------------
  // Rotary lines and the rotary log

  /** `bytes.decode("utf-8")`, which either yields text or raises. */
  datatype Decoded = Text(text: string) | DecodeError

  /** The text the numbers are read from; a failed decode reads as "0 0 0". */
  function TextOf(d: Decoded): string
  {
    match d
    case Text(t) => t
    case DecodeError => "0 0 0"
  }

  /** `' '.join(re.findall(...))` for one line read from the serial port. */
  function RotaryItem(raw: seq<Byte>, decode: seq<Byte> -> Decoded): string
  {
    Join(FindAll(TextOf(decode(StripLineEnd(raw)))), " ")
  }

  /** A rotary entry's numbers, in order, carry exactly the digits of its decoded text. */
  lemma RotaryItemDigits(raw: seq<Byte>, decode: seq<Byte> -> Decoded)
    ensures Digits(RotaryItem(raw, decode)) == Digits(TextOf(decode(StripLineEnd(raw))))
  {
    var text := TextOf(decode(StripLineEnd(raw)));
    DigitsJoin(FindAll(text));
    FindAllKeepsDigits(text, 0);
    assert text[0..] == text;
  }

  /** A line that does not decode is logged as "0 0 0". */
  lemma UndecodableLine(raw: seq<Byte>, decode: seq<Byte> -> Decoded)
    requires decode(StripLineEnd(raw)) == DecodeError
    ensures RotaryItem(raw, decode) == "0 0 0"
  {
    var s := "0 0 0";
    RunEndIs(s, 0, 1);
    RunEndIs(s, 1, 1);
    RunEndIs(s, 2, 3);
    RunEndIs(s, 3, 3);
    RunEndIs(s, 4, 5);
    assert FindAllFrom(s, 5) == [];
    assert LastDigitEnd(s, 4, 5) == Some(5) && s[4..5] == "0";
    assert FindAllFrom(s, 4) == ["0"];
    assert FindAllFrom(s, 3) == ["0"];
    assert LastDigitEnd(s, 2, 3) == Some(3) && s[2..3] == "0";
    assert FindAllFrom(s, 2) == ["0", "0"];
    assert FindAllFrom(s, 1) == ["0", "0"];
    assert LastDigitEnd(s, 0, 1) == Some(1) && s[0..1] == "0";
    assert FindAllFrom(s, 0) == ["0", "0", "0"];
  }

  /** A rotary entry holds only digits, dots and spaces, so never a line break. */
  lemma RotaryItemOneLine(raw: seq<Byte>, decode: seq<Byte> -> Decoded)
    ensures '\n' !in RotaryItem(raw, decode)
  {
    var ts := FindAll(TextOf(decode(StripLineEnd(raw))));
    forall i | 0 <= i < |ts|
      ensures '\n' !in ts[i]
    {
      assert IsToken(ts[i]);
    }
    JoinExcludes(ts, " ", '\n');
  }

  function RotaryItems(readings: seq<seq<Byte>>, decode: seq<Byte> -> Decoded): (items: seq<string>)
    ensures |items| == |readings|
    ensures forall i :: 0 <= i < |readings| ==> items[i] == RotaryItem(readings[i], decode)
  {
    if |readings| == 0 then []
    else [RotaryItem(readings[0], decode)] + RotaryItems(readings[1..], decode)
  }

  /** The text appended to the `_r.txt` log. */
  function RotaryLog(readings: seq<seq<Byte>>, decode: seq<Byte> -> Decoded): string
  {
    Serialise(RotaryItems(readings, decode))
  }

  /** The rotary log has one line per reading and reads back to the entries. */
  lemma RotaryLogReadsBack(readings: seq<seq<Byte>>, decode: seq<Byte> -> Decoded)
    ensures ParseLog(RotaryLog(readings, decode)) == Some(RotaryItems(readings, decode))
    ensures CountChar(RotaryLog(readings, decode), '\n') == |readings|
  {
    var items := RotaryItems(readings, decode);
    forall i | 0 <= i < |items|
      ensures '\n' !in items[i]
    {
      RotaryItemOneLine(readings[i], decode);
    }
    ParseSerialise(items);
    SerialiseLineCount(items);
  }
}
