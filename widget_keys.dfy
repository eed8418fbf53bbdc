/** Keys of the per-goal "Complete" buttons. The page names the button of
    the goal at position idx "complete_" followed by idx in decimal; the UI
    reports a press by that key, so distinct goals must get distinct keys. */
module WidgetKeys {
  import opened Records

  function DigitChar(d: nat): (c: char)
    requires d < 10
    ensures '0' <= c <= '9'
  {
    ('0' as int + d) as char
  }

  function DigitValue(c: char): nat
  {
    if '0' <= c <= '9' then (c as int - '0' as int) as nat else 0
  }

  /** The decimal numeral of n, most significant digit first, as Python's str(n). */
  function Decimal(n: nat): (s: string)
    ensures |s| >= 1
    decreases n
  {
    if n < 10 then [DigitChar(n)] else Decimal(n / 10) + [DigitChar(n % 10)]
  }

  /** Reads a numeral back, most significant digit first. */
  function ParseDecimal(s: string): nat
  {
    if s == [] then 0 else ParseDecimal(s[..|s| - 1]) * 10 + DigitValue(s[|s| - 1])
  }

  /** Reading back the numeral of n gives n. */
  lemma {:induction false} ParseDecimalInverts(n: nat)
    ensures ParseDecimal(Decimal(n)) == n
    decreases n
  {
    var s := Decimal(n);
    if n < 10 {
      assert s[..|s| - 1] == [];
    } else {
      ParseDecimalInverts(n / 10);
      assert s[..|s| - 1] == Decimal(n / 10);
    }
  }

  const KeyPrefix: string := "complete_"

  /** Key of the Complete button shown for the goal at position idx. */
  function CompleteKey(idx: nat): (k: string)
    ensures |k| == |KeyPrefix| + |Decimal(idx)|
    ensures k[..|KeyPrefix|] == KeyPrefix && k[|KeyPrefix|..] == Decimal(idx)
  {
    KeyPrefix + Decimal(idx)
  }

  /** Each Complete button is addressed by its own position only. */
  lemma CompleteKeyInjective(i: nat, j: nat)
    ensures CompleteKey(i) == CompleteKey(j) <==> i == j
  {
    if CompleteKey(i) == CompleteKey(j) {
      ParseDecimalInverts(i);
      ParseDecimalInverts(j);
    }
  }

  /** Which of the n goals on the page, if any, owns the pressed button. */
  ghost function PressedIndex(pressed: Option<string>, n: nat): (r: Option<nat>)
    ensures r.Some? <==> pressed.Some? && exists i: nat :: i < n && CompleteKey(i) == pressed.value
    ensures r.Some? ==> r.value < n && CompleteKey(r.value) == pressed.value
  {
    if pressed.Some? && exists i: nat :: i < n && CompleteKey(i) == pressed.value then
      var i: nat :| i < n && CompleteKey(i) == pressed.value;
      Some(i)
    else
      None
  }

  /** Pressing the button of goal i selects goal i and no other. */
  lemma PressedIndexOfKey(i: nat, n: nat)
    requires i < n
    ensures PressedIndex(Some(CompleteKey(i)), n) == Some(i)
  {
    var r := PressedIndex(Some(CompleteKey(i)), n);
    CompleteKeyInjective(r.value, i);
  }

  /** A key that names no position below n (an out-of-range index, or no
      press at all) selects nothing. */
  lemma PressedIndexOutOfRange(k: nat, n: nat)
    requires n <= k
    ensures PressedIndex(Some(CompleteKey(k)), n) == None
  {
    if PressedIndex(Some(CompleteKey(k)), n).Some? {
      var i := PressedIndex(Some(CompleteKey(k)), n).value;
      CompleteKeyInjective(i, k);
    }
  }
}
