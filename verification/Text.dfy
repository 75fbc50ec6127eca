/** Trimming, decimal numbers and numbered names. */
module Text {
  /** White space as JavaScript's trim sees it: blanks, line ends, the byte order mark and the space separators. */
  predicate IsSpace(c: char)
  {
    var n := c as int;
    || 9 <= n <= 13 || n == 0x20 || n == 0xA0 || n == 0xFEFF || n == 0x1680 || 0x2000 <= n <= 0x200A
    || n == 0x2028 || n == 0x2029 || n == 0x202F || n == 0x205F || n == 0x3000
  }

  function TrimLeft(s: string): string
  {
    if s != [] && IsSpace(s[0]) then TrimLeft(s[1..]) else s
  }

  function TrimRight(s: string): string
  {
    if s != [] && IsSpace(s[|s| - 1]) then TrimRight(s[..|s| - 1]) else s
  }

  function Trim(s: string): string
  {
    TrimRight(TrimLeft(s))
  }

  predicate Trimmed(s: string)
  {
    s == [] || (!IsSpace(s[0]) && !IsSpace(s[|s| - 1]))
  }

  lemma {:induction false} TrimRightKeepsHead(s: string)
    requires s != [] && !IsSpace(s[0])
    ensures TrimRight(s) != [] && TrimRight(s)[0] == s[0] && !IsSpace(TrimRight(s)[|TrimRight(s)| - 1])
  {
    if IsSpace(s[|s| - 1]) {
      TrimRightKeepsHead(s[..|s| - 1]);
    }
  }

  lemma {:induction false} TrimLeftHead(s: string)
    ensures TrimLeft(s) == [] || !IsSpace(TrimLeft(s)[0])
  {
    if s != [] && IsSpace(s[0]) {
      TrimLeftHead(s[1..]);
    }
  }

  /** Trimming leaves no white space at either end, and changes nothing that has none. */
  lemma TrimIsTrimmed(s: string)
    ensures Trimmed(Trim(s))
    ensures Trimmed(s) ==> Trim(s) == s
  {
    TrimLeftHead(s);
    if TrimLeft(s) != [] {
      TrimRightKeepsHead(TrimLeft(s));
    }
  }

  /** Trimming takes away white space at the two ends and nothing else. */
  lemma TrimTakesSpace(s: string) returns (before: string, after: string)
    ensures s == before + Trim(s) + after
    ensures forall i :: 0 <= i < |before| ==> IsSpace(before[i])
    ensures forall i :: 0 <= i < |after| ==> IsSpace(after[i])
  {
    before := TrimLeftTakes(s);
    after := TrimRightTakes(TrimLeft(s));
    assert s == before + (Trim(s) + after);
  }

  lemma {:induction false} TrimLeftTakes(s: string) returns (before: string)
    ensures s == before + TrimLeft(s) && forall i :: 0 <= i < |before| ==> IsSpace(before[i])
  {
    before := [];
    if s != [] && IsSpace(s[0]) {
      var more := TrimLeftTakes(s[1..]);
      before := [s[0]] + more;
    }
  }

  lemma {:induction false} TrimRightTakes(s: string) returns (after: string)
    ensures s == TrimRight(s) + after && forall i :: 0 <= i < |after| ==> IsSpace(after[i])
  {
    after := [];
    if s != [] && IsSpace(s[|s| - 1]) {
      var more := TrimRightTakes(s[..|s| - 1]);
      after := more + [s[|s| - 1]];
    }
  }

  function Digit(n: nat): (c: char)
    requires n < 10
    ensures c != '(' && c != ')'
  {
    "0123456789"[n]
  }

  function Decimal(n: nat): (s: string)
    ensures s != [] && forall i :: 0 <= i < |s| ==> s[i] != '('
  {
    if n < 10 then [Digit(n)] else Decimal(n / 10) + [Digit(n % 10)]
  }

  /** The number a string of digits stands for. */
  function NumberIn(s: string): int
  {
    if s == [] then 0 else 10 * NumberIn(s[..|s| - 1]) + (s[|s| - 1] as int - '0' as int)
  }

  /** The digits of a number stand for it, without a leading zero. */
  lemma {:induction false} DecimalReads(n: nat)
    ensures NumberIn(Decimal(n)) == n
    ensures forall i :: 0 <= i < |Decimal(n)| ==> '0' <= Decimal(n)[i] <= '9'
    ensures n > 0 ==> Decimal(n)[0] != '0'
  {
    var s := Decimal(n);
    assert s[|s| - 1] as int == '0' as int + n % 10;
    if n >= 10 {
      DecimalReads(n / 10);
      assert s[..|s| - 1] == Decimal(n / 10);
    } else {
      assert s[..0] == [];
    }
  }

  lemma {:induction false} DecimalInjective(m: nat, n: nat)
    requires Decimal(m) == Decimal(n)
    ensures m == n
  {
    var s, t := Decimal(m), Decimal(n);
    assert s[|s| - 1] == Digit(m % 10) && t[|t| - 1] == Digit(n % 10);
    DigitInjective(m % 10, n % 10);
    if m >= 10 && n >= 10 {
      assert s[..|s| - 1] == Decimal(m / 10) && t[..|t| - 1] == Decimal(n / 10);
      DecimalInjective(m / 10, n / 10);
    }
  }

  lemma DigitInjective(m: nat, n: nat)
    requires m < 10 && n < 10 && Digit(m) == Digit(n)
    ensures m == n
  {
  }

  /** A name with a number: "base (k)". */
  function Numbered(base: string, k: nat): (s: string)
    ensures |s| > |base|
  {
    base + " (" + Decimal(k) + ")"
  }

  /** Where the last opening parenthesis is. */
  function LastOpen(s: string): nat
  {
    if s == [] || s[|s| - 1] == '(' then |s| else LastOpen(s[..|s| - 1])
  }

  lemma {:induction false} LastOpenAt(p: string, t: string)
    requires forall i :: 0 <= i < |t| ==> t[i] != '('
    ensures LastOpen(p + "(" + t) == |p| + 1
  {
    var s := p + "(" + t;
    if t != [] {
      LastOpenAt(p, t[..|t| - 1]);
      assert s[..|s| - 1] == p + "(" + t[..|t| - 1];
    } else {
      assert s == p + "(";
    }
  }

  /** A numbered name tells its base and its number apart, since a number has no opening parenthesis. */
  lemma NumberedInjective(a: string, k: nat, b: string, l: nat)
    requires Numbered(a, k) == Numbered(b, l)
    ensures a == b && k == l
  {
    var s := Numbered(a, k);
    LastOpenAt(a + " ", Decimal(k) + ")");
    LastOpenAt(b + " ", Decimal(l) + ")");
    assert s == (a + " ") + "(" + (Decimal(k) + ")");
    assert s == (b + " ") + "(" + (Decimal(l) + ")");
    assert a == s[..|a|] == b;
    assert Decimal(k) == s[|a| + 2..|s| - 1] == Decimal(l);
    DecimalInjective(k, l);
  }

  lemma NumberedTrimmed(base: string, k: nat)
    requires base != [] && Trimmed(base)
    ensures Trim(Numbered(base, k)) == Numbered(base, k)
  {
    var s := Numbered(base, k);
    assert s[0] == base[0] && s[|s| - 1] == ')';
    TrimIsTrimmed(s);
  }

  /** Lexicographic order by character code. */
  predicate LexLe(a: string, b: string)
  {
    if a == [] then true
    else if b == [] then false
    else a[0] < b[0] || (a[0] == b[0] && LexLe(a[1..], b[1..]))
  }

  lemma {:induction false} ExtensionIsGreater(a: string, more: string)
    requires more != []
    ensures LexLe(a, a + more) && !LexLe(a + more, a)
  {
    if a == [] {
      assert a + more == more;
    } else {
      assert (a + more)[1..] == a[1..] + more;
      ExtensionIsGreater(a[1..], more);
    }
  }
}
