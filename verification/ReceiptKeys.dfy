/** The keys of receipt conditions: a branch number, a position in the branch and a name. */
module ReceiptKeys {
  import opened Wrappers
  import opened WhereEval

  function DecimalDigit(n: nat): char
    requires n < 10
  {
    ('0' as int + n) as char
  }

  function Decimal(n: nat): (s: string)
    ensures s != ""
  {
    if n < 10 then [DecimalDigit(n)] else Decimal(n / 10) + [DecimalDigit(n % 10)]
  }

  /** The key of condition `index` in branch `case`: c<case>.c<index>:<name>. */
  function ConditionKey(caseIndex: nat, index: nat, name: string): string {
    "c" + Decimal(caseIndex) + "." + ("c" + Decimal(index) + ":" + name)
  }

  // The text before the first separator; None without a separator.
  function Before(s: string, separator: char): Option<string> {
    if s == "" then None
    else if s[0] == separator then Some("")
    else
      var rest := Before(s[1..], separator);
      if rest.None? then None else Some([s[0]] + rest.value)
  }

  predicate AllDigits(s: string) {
    forall c :: c in s ==> IsDigit(c)
  }

  // The branch number a key names; None for a malformed key.
  function CaseOfKey(key: string): Option<nat> {
    var prefix := Before(key, '.');
    if prefix.None? || prefix.value == "" || prefix.value[0] != 'c' then None
    else if prefix.value[1..] == "" || !AllDigits(prefix.value[1..]) then None
    else Some(DigitsValue(prefix.value[1..]))
  }

  lemma {:induction false} DecimalValue(n: nat)
    ensures AllDigits(Decimal(n)) && DigitsValue(Decimal(n)) == n
  {
    if n < 10 {
      assert Decimal(n)[..0] == "";
      assert DigitsValue("") == 0;
    } else {
      DecimalValue(n / 10);
      var s := Decimal(n);
      assert s[..|s| - 1] == Decimal(n / 10) && s[|s| - 1] == DecimalDigit(n % 10);
      assert forall c :: c in s ==> c in Decimal(n / 10) || c == DecimalDigit(n % 10);
    }
  }

  lemma {:induction false} BeforeFirst(head: string, separator: char, tail: string)
    requires separator !in head
    ensures Before(head + [separator] + tail, separator) == Some(head)
  {
    var all := head + [separator] + tail;
    if head != "" {
      assert all[1..] == head[1..] + [separator] + tail;
      BeforeFirst(head[1..], separator, tail);
      assert head == [head[0]] + head[1..];
    }
  }

  lemma DigitsHaveNo(n: nat, separator: char)
    requires !IsDigit(separator)
    ensures separator !in Decimal(n)
  {
    DecimalValue(n);
  }

  /** A key names its branch. */
  lemma KeyNamesCase(caseIndex: nat, index: nat, name: string)
    ensures CaseOfKey(ConditionKey(caseIndex, index, name)) == Some(caseIndex)
  {
    var head, tail := "c" + Decimal(caseIndex), "c" + Decimal(index) + ":" + name;
    DigitsHaveNo(caseIndex, '.');
    assert ConditionKey(caseIndex, index, name) == head + ['.'] + tail;
    BeforeFirst(head, '.', tail);
    assert head[1..] == Decimal(caseIndex);
    DecimalValue(caseIndex);
  }

  /** Two conditions of a branch never share a key, whatever they are called. */
  lemma KeysDiffer(caseIndex: nat, i: nat, m: string, j: nat, n: string)
    requires ConditionKey(caseIndex, i, m) == ConditionKey(caseIndex, j, n)
    ensures i == j && m == n
  {
    var head := "c" + Decimal(caseIndex) + "." + "c";
    assert ConditionKey(caseIndex, i, m) == head + (Decimal(i) + [':'] + m);
    assert ConditionKey(caseIndex, j, n) == head + (Decimal(j) + [':'] + n);
    var x, y := Decimal(i) + [':'] + m, Decimal(j) + [':'] + n;
    assert x == (head + x)[|head|..] && y == (head + y)[|head|..];
    DigitsHaveNo(i, ':');
    DigitsHaveNo(j, ':');
    BeforeFirst(Decimal(i), ':', m);
    BeforeFirst(Decimal(j), ':', n);
    DecimalValue(i);
    DecimalValue(j);
    assert m == x[|Decimal(i)| + 1..] && n == y[|Decimal(j)| + 1..];
  }
}
