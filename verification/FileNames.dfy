/** Numbers printed into and read back from the names of stored files (lib/myqtt-storage.c). */
module FileNames {
  import opened Wrappers

  const DIGITS := "0123456789"
  const BUFFER: nat := 10

  /** The numbers that are read back from a name are those below. */
  const NAME_LIMIT: nat := 1_000_000_000

  predicate IsDigit(c: char) {
    '0' <= c <= '9'
  }

  /** A number as "%d" prints it. */
  function Dec(n: nat): (s: string)
    ensures s != []
  {
    if n < 10 then [DIGITS[n]] else Dec(n / 10) + [DIGITS[n % 10]]
  }

  /** What a string of digits stands for. */
  function Number(s: string): nat {
    if s == [] then 0 else Number(s[..|s| - 1]) * 10 + (s[|s| - 1] as int - '0' as int) % 10
  }

  /** The index of the first character from `i` on that is no digit, or the length. */
  function DigitsEnd(s: string, i: nat): (k: nat)
    requires i <= |s|
    ensures i <= k <= |s|
    ensures forall j :: i <= j < k ==> IsDigit(s[j])
    ensures k < |s| ==> !IsDigit(s[k])
    decreases |s| - i
  {
    if i < |s| && IsDigit(s[i]) then DigitsEnd(s, i + 1) else i
  }

  /** The number at the front of a name and its length; something else must follow it within ten characters. */
  function Leading(name: string): Option<(nat, nat)> {
    var k := DigitsEnd(name, 0);
    if k < |name| && k < BUFFER then Some((Number(name[..k]), k)) else None
  }

  method GetSizeFromFileName(name: string) returns (size: int, position: nat)
    ensures Leading(name) == if size == -1 then None else Some((size, position))
  {
    var buffer := new char[10];
    var i := 0;
    while i < |name| && i < 10
      invariant i <= |name| && i <= 10
      invariant DigitsEnd(name, i) == DigitsEnd(name, 0)
      invariant buffer[..i] == name[..i]
    {
      if name[i] < '0' || '9' < name[i] {
        return Number(buffer[..i]), i;
      }
      buffer[i] := name[i];
      i := i + 1;
    }
    return -1, i;
  }

  /* ---------- Reading back what was printed ---------- */

  function Pow10(k: nat): nat {
    if k == 0 then 1 else 10 * Pow10(k - 1)
  }

  lemma DigitOf(d: nat)
    requires d < 10
    ensures IsDigit(DIGITS[d]) && DIGITS[d] as int - '0' as int == d
  {
  }

  lemma {:induction false} DecIsNumber(n: nat)
    ensures Number(Dec(n)) == n && forall j :: 0 <= j < |Dec(n)| ==> IsDigit(Dec(n)[j])
  {
    if n < 10 {
      NumberAppend([], n);
      assert [] + [DIGITS[n]] == [DIGITS[n]];
    } else {
      DecIsNumber(n / 10);
      NumberAppend(Dec(n / 10), n % 10);
    }
  }

  lemma NumberAppend(front: string, d: nat)
    requires d < 10
    ensures Number(front + [DIGITS[d]]) == Number(front) * 10 + d && IsDigit(DIGITS[d])
  {
    DigitOf(d);
    assert (front + [DIGITS[d]])[..|front|] == front;
  }

  lemma {:induction false} DecLength(n: nat, k: nat)
    requires 0 < k
    ensures |Dec(n)| <= k <==> n < Pow10(k)
  {
    if k == 1 {
      assert Pow10(1) == 10 * Pow10(0);
    } else if 10 <= n {
      DecLength(n / 10, k - 1);
    } else {
      PowersGrow(k);
    }
  }

  lemma {:induction false} PowersGrow(k: nat)
    requires 0 < k
    ensures 10 <= Pow10(k)
  {
    if 1 < k {
      PowersGrow(k - 1);
    } else {
      assert Pow10(1) == 10 * Pow10(0);
    }
  }

  lemma {:induction false} DigitsEndAt(s: string, i: nat, k: nat)
    requires i <= k <= |s| && (forall j :: i <= j < k ==> IsDigit(s[j])) && (k < |s| ==> !IsDigit(s[k]))
    ensures DigitsEnd(s, i) == k
    decreases k - i
  {
    if i < k {
      DigitsEndAt(s, i + 1, k);
    }
  }

  lemma Billion()
    ensures Pow10(9) == NAME_LIMIT
  {
    assert Pow10(3) == 10 * Pow10(2) == 100 * Pow10(1) == 1000 * Pow10(0);
    assert Pow10(6) == 10 * Pow10(5) == 100 * Pow10(4) == 1000 * Pow10(3);
    assert Pow10(9) == 10 * Pow10(8) == 100 * Pow10(7) == 1000 * Pow10(6);
  }

  /** A number in front of a dash is read back exactly when it is below 10^9; a longer one is not read at all. */
  lemma ReadBack(n: nat, rest: string)
    ensures Leading(Dec(n) + "-" + rest) == if n < NAME_LIMIT then Some((n, |Dec(n)|)) else None
  {
    var (digits, name) := (Dec(n), Dec(n) + "-" + rest);
    DecIsNumber(n);
    assert forall j :: 0 <= j < |digits| ==> name[j] == digits[j];
    assert name[|digits|] == '-' && name[..|digits|] == digits;
    DigitsEndAt(name, 0, |digits|);
    DecLength(n, 9);
    Billion();
  }

  /** Digits that nothing follows are not read. */
  lemma OnlyDigitsUnread(name: string)
    requires forall k :: 0 <= k < |name| ==> IsDigit(name[k])
    ensures Leading(name) == None
  {
    assert DigitsEnd(name, 0) == |name|;
  }

  /** What follows the first number of a name and its dash. */
  function Behind(name: string, position: nat): string {
    if position < |name| then name[position + 1..] else []
  }

  lemma BehindNumber(n: nat, rest: string)
    ensures Behind(Dec(n) + "-" + rest, |Dec(n)|) == rest
  {
  }
}
