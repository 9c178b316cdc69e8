/**
 * The string operations the chatbot relies on: ASCII `str.lower`,
 * `str.capitalize`, the substring test `needle in text`, decimal rendering
 * of the list numbers in f-strings, and string concatenation of pieces.
 */
module Text {

  // ---------------------------------------------------------------------
  // Case mapping (ASCII only)
  // ---------------------------------------------------------------------

  predicate IsUpper(c: char) { 'A' <= c <= 'Z' }
  predicate IsLower(c: char) { 'a' <= c <= 'z' }

  function LowerChar(c: char): char
  {
    if IsUpper(c) then (c as int + 32) as char else c
  }

  function UpperChar(c: char): char
  {
    if IsLower(c) then (c as int - 32) as char else c
  }

  /** `s.lower()` restricted to ASCII letters. */
  function Lower(s: string): (r: string)
    ensures |r| == |s|
    ensures forall i :: 0 <= i < |r| ==> !IsUpper(r[i])
    ensures forall i :: 0 <= i < |s| && !IsUpper(s[i]) ==> r[i] == s[i]
    ensures forall i :: 0 <= i < |s| && IsUpper(s[i]) ==> IsLower(r[i]) && UpperChar(r[i]) == s[i]
  {
    seq(|s|, i requires 0 <= i < |s| => LowerChar(s[i]))
  }

  /** `s.capitalize()`: first character upper-cased, the rest lower-cased. */
  function Capitalize(s: string): string
  {
    if s == [] then [] else [UpperChar(s[0])] + Lower(s[1..])
  }

  /** Capitalizing only changes case: lower-casing undoes it. */
  lemma CapitalizeLower(s: string)
    ensures |Capitalize(s)| == |s|
    ensures Lower(Capitalize(s)) == Lower(s)
    ensures s != [] && IsLower(s[0]) ==> Capitalize(s)[0] == UpperChar(s[0]) && IsUpper(Capitalize(s)[0])
    ensures s != [] ==> !IsLower(Capitalize(s)[0])
    ensures forall i :: 1 <= i < |s| ==> !IsUpper(Capitalize(s)[i])
  {
    if s != [] {
      var c := Capitalize(s);
      forall i | 0 <= i < |s| ensures Lower(c)[i] == Lower(s)[i] {
        if i > 0 {
          assert c[i] == LowerChar(s[i]);
        }
      }
    }
  }

  // ---------------------------------------------------------------------
  // Substring test: Python's `needle in text`
  // ---------------------------------------------------------------------

  /** `needle` sits in `text` starting at position `i`. */
  ghost predicate OccursAt(needle: string, text: string, i: int)
  {
    0 <= i && i + |needle| <= |text| && text[i..i + |needle|] == needle
  }

  /** The specification of `needle in text`: some position holds `needle`. */
  ghost predicate Occurs(needle: string, text: string)
  {
    exists i :: OccursAt(needle, text, i)
  }

  /** When `needle` is not at the front of `text`, it occurs in `text` exactly when it occurs in `text[1..]`. */
  lemma OccursShift(needle: string, text: string)
    requires |text| > 0 && !OccursAt(needle, text, 0)
    ensures Occurs(needle, text) <==> Occurs(needle, text[1..])
  {
    if Occurs(needle, text) {
      var i :| OccursAt(needle, text, i);
      assert i > 0;
      assert text[1..][i - 1..i - 1 + |needle|] == text[i..i + |needle|];
      assert OccursAt(needle, text[1..], i - 1);
    }
    if Occurs(needle, text[1..]) {
      var j :| OccursAt(needle, text[1..], j);
      assert text[1..][j..j + |needle|] == text[j + 1..j + 1 + |needle|];
      assert OccursAt(needle, text, j + 1);
    }
  }

  /** The executable substring test, scanning start positions left to right. */
  function Contains(text: string, needle: string): (b: bool)
    ensures b <==> Occurs(needle, text)
    decreases |text|
  {
    if |needle| > |text| then
      false
    else if text[..|needle|] == needle then
      assert OccursAt(needle, text, 0);
      true
    else
      OccursShift(needle, text);
      Contains(text[1..], needle)
  }

  /** A string holding a character that `text` lacks does not occur in `text`. */
  lemma MissingCharNotOccurs(needle: string, text: string, c: char)
    requires c in needle && c !in text
    ensures !Occurs(needle, text)
  {
  }

  /** A substring of a substring is a substring. */
  lemma OccursTrans(a: string, b: string, c: string)
    requires Occurs(a, b) && Occurs(b, c)
    ensures Occurs(a, c)
  {
    var i :| OccursAt(a, b, i);
    var j :| OccursAt(b, c, j);
    assert c[j..j + |b|] == b;
    forall k | 0 <= k < |a| ensures c[j + i + k] == a[k] {
      assert c[j..j + |b|][i + k] == b[i + k];
      assert b[i..i + |a|][k] == a[k];
    }
    assert c[j + i..j + i + |a|] == a;
    assert OccursAt(a, c, j + i);
  }

  /** A string occurs at the front of anything it is followed by. */
  lemma OccursLeft(x: string, post: string)
    ensures Occurs(x, x + post)
  {
    assert (x + post)[0..|x|] == x;
    assert OccursAt(x, x + post, 0);
  }

  /** A string occurs at the end of anything it follows. */
  lemma OccursRight(pre: string, x: string)
    ensures Occurs(x, pre + x)
  {
    assert (pre + x)[|pre|..|pre| + |x|] == x;
    assert OccursAt(x, pre + x, |pre|);
  }

  // ---------------------------------------------------------------------
  // Decimal rendering of the list numbers (`f"{i}"`)
  // ---------------------------------------------------------------------

  predicate IsDigit(c: char) { '0' <= c <= '9' }

  predicate AllDigits(s: string) { forall i :: 0 <= i < |s| ==> IsDigit(s[i]) }

  function DigitChar(d: nat): char
    requires d < 10
  {
    ('0' as int + d) as char
  }

  /** `str(n)` for a natural number: its decimal digits, without leading zeros. */
  function NatToString(n: nat): (s: string)
    ensures |s| >= 1 && AllDigits(s)
    ensures s[0] == '0' <==> n == 0
    decreases n
  {
    if n < 10 then [DigitChar(n)] else NatToString(n / 10) + [DigitChar(n % 10)]
  }

  /** Reads a string of decimal digits back as a number. */
  function ParseDecimal(s: string): nat
    requires AllDigits(s)
  {
    if s == [] then 0 else 10 * ParseDecimal(s[..|s| - 1]) + (s[|s| - 1] as int - '0' as int)
  }

  /** Rendering a number and reading it back gives the number again. */
  lemma {:induction false} ParseNatToString(n: nat)
    ensures ParseDecimal(NatToString(n)) == n
    decreases n
  {
    var s := NatToString(n);
    if n >= 10 {
      ParseNatToString(n / 10);
      assert s[..|s| - 1] == NatToString(n / 10);
    }
  }

  /** Distinct numbers render to distinct strings, so list numbers never repeat. */
  lemma NatToStringInjective(m: nat, n: nat)
    requires NatToString(m) == NatToString(n)
    ensures m == n
  {
    ParseNatToString(m);
    ParseNatToString(n);
  }

  // ---------------------------------------------------------------------
  // Building a string by appending pieces (`s += piece` in a loop)
  // ---------------------------------------------------------------------

  /** `start` followed by `pieces`, appended one at a time from left to right. */
  function Join(start: string, pieces: seq<string>): (r: string)
    ensures |r| >= |start|
  {
    if pieces == [] then start else Join(start, pieces[..|pieces| - 1]) + pieces[|pieces| - 1]
  }

  /** Taking one more piece appends that piece. */
  lemma JoinTake(start: string, pieces: seq<string>, i: nat)
    requires i < |pieces|
    ensures Join(start, pieces[..i + 1]) == Join(start, pieces[..i]) + pieces[i]
  {
    assert pieces[..i + 1][..i] == pieces[..i];
  }

  /** The joined string begins with `start`. */
  lemma {:induction false} JoinPrefix(start: string, pieces: seq<string>)
    ensures Join(start, pieces)[..|start|] == start
    decreases |pieces|
  {
    if pieces != [] {
      JoinPrefix(start, pieces[..|pieces| - 1]);
    }
  }

  /** Joining onto a longer start puts the extra text in front. */
  lemma {:induction false} JoinPrepend(a: string, b: string, pieces: seq<string>)
    ensures Join(a + b, pieces) == a + Join(b, pieces)
    decreases |pieces|
  {
    if pieces != [] {
      var init, last := pieces[..|pieces| - 1], pieces[|pieces| - 1];
      JoinPrepend(a, b, init);
      assert (a + Join(b, init)) + last == a + (Join(b, init) + last);
    }
  }

  /** The start and every piece occur in the joined string. */
  lemma {:induction false} JoinHasPiece(start: string, pieces: seq<string>, k: nat)
    requires k < |pieces|
    ensures Occurs(pieces[k], Join(start, pieces))
    decreases |pieces|
  {
    var init, last := pieces[..|pieces| - 1], pieces[|pieces| - 1];
    if k == |pieces| - 1 {
      OccursRight(Join(start, init), last);
    } else {
      JoinHasPiece(start, init, k);
      OccursLeft(Join(start, init), last);
      OccursTrans(pieces[k], Join(start, init), Join(start, pieces));
    }
  }

  lemma {:induction false} JoinHasStart(start: string, pieces: seq<string>)
    ensures Occurs(start, Join(start, pieces))
    decreases |pieces|
  {
    if pieces == [] {
      OccursLeft(start, "");
      assert start + "" == start;
    } else {
      var init, last := pieces[..|pieces| - 1], pieces[|pieces| - 1];
      JoinHasStart(start, init);
      OccursLeft(Join(start, init), last);
      OccursTrans(start, Join(start, init), Join(start, pieces));
    }
  }
}
