/** Numbers inside node names: decimal text, zero padding to a width as Python's
    '{:0Nd}' does it, and int() the other way. */
module NumberText {

  predicate IsDigit(c: char) { '0' <= c <= '9' }

  /** str.isdigit, on ASCII text. */
  predicate AllDigits(s: string) { s != "" && forall i :: 0 <= i < |s| ==> IsDigit(s[i]) }

  function DigitChar(d: nat): (c: char)
    requires d < 10
    ensures IsDigit(c)
  {
    ['0', '1', '2', '3', '4', '5', '6', '7', '8', '9'][d]
  }

  function DigitValue(c: char): (d: nat)
    requires IsDigit(c)
    ensures d < 10 && DigitChar(d) == c
  {
    (c as int) - ('0' as int)
  }

  /** '{}'.format(n) */
  function Digits(n: nat): (s: string)
    ensures AllDigits(s)
  {
    (if n < 10 then "" else Digits(n / 10)) + [DigitChar(n % 10)]
  }

  /** int(s) */
  function Value(s: string): nat
    requires forall i :: 0 <= i < |s| ==> IsDigit(s[i])
  {
    if s == "" then 0 else Value(s[..|s| - 1]) * 10 + DigitValue(s[|s| - 1])
  }

  function Zeros(n: nat): (s: string)
    ensures |s| == n && forall i :: 0 <= i < n ==> s[i] == '0'
  {
    seq(n, _ => '0')
  }

  /** '{:0wd}'.format(n) */
  function Pad(n: nat, w: nat): (s: string)
    ensures AllDigits(s)
  {
    if w <= |Digits(n)| then Digits(n) else Zeros(w - |Digits(n)|) + Digits(n)
  }

  lemma PadLength(n: nat, w: nat)
    ensures |Pad(n, w)| == if w <= |Digits(n)| then |Digits(n)| else w
  {
  }

  lemma {:induction false} ValueOfDigits(n: nat)
    ensures Value(Digits(n)) == n
  {
    var s := Digits(n);
    assert s[..|s| - 1] == if n < 10 then "" else Digits(n / 10);
    assert DigitValue(DigitChar(n % 10)) == n % 10;
    if n >= 10 {
      ValueOfDigits(n / 10);
    }
    assert n / 10 * 10 + n % 10 == n;
  }

  lemma {:induction false} ValueOfZeros(k: nat)
    ensures Value(Zeros(k)) == 0
  {
    if k > 0 {
      assert Zeros(k)[..k - 1] == Zeros(k - 1);
      ValueOfZeros(k - 1);
    }
  }

  lemma {:induction false} ValueOfPadded(k: nat, s: string)
    requires AllDigits(s)
    ensures AllDigits(Zeros(k) + s) && Value(Zeros(k) + s) == Value(s)
    decreases k + |s|
  {
    var t := Zeros(k) + s;
    if |s| > 1 {
      assert t[..|t| - 1] == Zeros(k) + s[..|s| - 1];
      ValueOfPadded(k, s[..|s| - 1]);
    } else {
      assert t[..|t| - 1] == Zeros(k);
      ValueOfZeros(k);
      assert s[..0] == "";
    }
  }

  /** Printing and reading back, at every width. */
  lemma ValueOfPad(n: nat, w: nat)
    ensures Value(Pad(n, w)) == n
  {
    hide Value, Digits;
    ValueOfDigits(n);
    if w > |Digits(n)| {
      ValueOfPadded(w - |Digits(n)|, Digits(n));
    }
  }

  /** The last digit and the rest, of a number and of its text. */
  lemma LastDigit(s: string)
    requires AllDigits(s) && |s| > 1
    ensures var n, m := Value(s), Value(s[..|s| - 1]);
            && AllDigits(s[..|s| - 1])
            && Digits(n) == (if m == 0 then "" else Digits(m)) + [s[|s| - 1]]
  {
    var n, m, d := Value(s), Value(s[..|s| - 1]), DigitValue(s[|s| - 1]);
    assert n / 10 == m && n % 10 == d;
  }

  lemma DigitsBelowTen(d: nat)
    requires d < 10
    ensures Digits(d) == [DigitChar(d)]
  {
    hide DigitChar;
    assert d % 10 == d;
    assert Digits(d) == "" + [DigitChar(d)];
  }

  lemma OneDigit(s: string)
    requires AllDigits(s) && |s| == 1
    ensures Digits(Value(s)) == s
  {
    hide Digits, DigitChar;
    assert s[..0] == "" && s == [s[0]];
    assert Value(s) == DigitValue(s[0]) by { assert Value("") == 0; }
    DigitsBelowTen(DigitValue(s[0]));
  }

  lemma DigitsOfZero()
    ensures Digits(0) == "0"
  {
  }

  /** Every digit string is its own value padded to its own length: nothing but the value
      and the length is in it. */
  lemma {:induction false} TextIsPad(s: string)
    requires AllDigits(s)
    ensures |Digits(Value(s))| <= |s|
    ensures s == Pad(Value(s), |s|)
  {
    hide Value, Digits;
    if |s| == 1 {
      OneDigit(s);
    } else {
      var front, last := s[..|s| - 1], s[|s| - 1];
      LastDigit(s);
      TextIsPad(front);
      assert s == front + [last];
      if Value(front) == 0 {
        DigitsOfZero();
        assert front == Zeros(|s| - 2) + "0" == Zeros(|s| - 1);
      }
    }
  }

  lemma {:induction false} DigitsGrow(a: nat, b: nat)
    requires a <= b
    ensures |Digits(a)| <= |Digits(b)|
    decreases b
  {
    if a >= 10 {
      DigitsGrow(a / 10, b / 10);
    }
  }

  /** Whether the text has leading zeros. */
  predicate NeedsPad(s: string)
    requires AllDigits(s)
  {
    |s| != |Digits(Value(s))|
  }

  /** The two conditions under which the bracketer will not let the next number join the run
      of the one before it. */
  predicate PadClash(prevWidth: nat, s: string)
    requires AllDigits(s)
  {
    |s| < prevWidth || (NeedsPad(s) && |s| != prevWidth)
  }

  /** The key fact of a run: a larger number without a clash is the run's left width padded,
      whatever mixture of widths the run has gone through. */
  lemma NoClashKeepsPadding(w: nat, prev: string, s: string)
    requires AllDigits(prev) && AllDigits(s) && Value(prev) < Value(s)
    requires prev == Pad(Value(prev), w)
    requires !PadClash(|prev|, s)
    ensures s == Pad(Value(s), w)
  {
    TextIsPad(s);
    PadLength(Value(prev), w);
    DigitsGrow(Value(prev), Value(s));
  }

  /** Same number, other width: always a clash. */
  lemma SameValueClashes(prev: string, s: string)
    requires AllDigits(prev) && AllDigits(s) && Value(prev) == Value(s) && |prev| != |s|
    ensures PadClash(|prev|, s)
  {
    TextIsPad(prev);
    TextIsPad(s);
  }

  // ----- ranges -----

  /** The place of the first colon, or |s|. */
  function Colon(s: string): (p: nat)
    ensures p <= |s| && (p < |s| ==> s[p] == ':') && forall i :: 0 <= i < p ==> s[i] != ':'
  {
    if s == "" || s[0] == ':' then 0 else Colon(s[1..]) + 1
  }

  /** expandrange on one entry of a bracket, for the entries the bracketer prints: numbers
      a..b at the width of the left end, and otherwise the entry itself. */
  function ExpandItem(item: string): set<string> {
    var p := Colon(item);
    if p == |item| then {item}
    else
      var left, right := item[..p], item[p + 1..];
      if left == right then {left}
      else if AllDigits(left) && AllDigits(right) && Value(left) < Value(right) then
        set k | Value(left) <= k <= Value(right) :: Pad(k, |left|)
      else {item}
  }

  lemma ColonAt(left: string, right: string)
    requires AllDigits(left)
    ensures Colon(left) == |left| && Colon(left + ":" + right) == |left|
  {
    var s := left + ":" + right;
    assert forall i :: 0 <= i < |left| ==> IsDigit(s[i]);
    assert s[|left|] == ':';
  }

  lemma SingleItemMeans(s: string)
    requires AllDigits(s)
    ensures ExpandItem(s) == {s}
  {
    ColonAt(s, "");
  }

  lemma RangeItemMeans(left: string, right: string)
    requires AllDigits(left) && AllDigits(right) && Value(left) < Value(right)
    ensures ExpandItem(left + ":" + right) == set k | Value(left) <= k <= Value(right) :: Pad(k, |left|)
  {
    hide Value, Pad;
    var item := left + ":" + right;
    ColonAt(left, right);
    assert item[..|left|] == left && item[|left| + 1..] == right;
  }
}
