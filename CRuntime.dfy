/** The three C runtime routines the list-box initializer and the draw handler rely on,
    over a flat character buffer: `memset`, `strlen` and `_itoa` with radix 10.
    `CString` is the specification of a NUL-terminated string stored at the front of a buffer. */
module CRuntime {
  import opened Decimal

  const NUL: char := '\0'

  /** The C string held at the front of s: everything before the first NUL
      (all of s when it holds no NUL). */
  function CString(s: seq<char>): (t: seq<char>)
    ensures |t| <= |s| && t == s[..|t|]
    ensures forall k :: 0 <= k < |t| ==> t[k] != NUL
    ensures |t| < |s| ==> s[|t|] == NUL
  {
    if s == [] || s[0] == NUL then [] else [s[0]] + CString(s[1..])
  }

  /** The C string is fixed by the position of the first NUL. */
  lemma {:induction false} CStringUpTo(s: seq<char>, n: nat)
    requires n < |s| && s[n] == NUL
    requires forall k :: 0 <= k < n ==> s[k] != NUL
    ensures CString(s) == s[..n]
    decreases n
  {
    if n > 0 {
      CStringUpTo(s[1..], n - 1);
      assert s[..n] == [s[0]] + s[1..][..n - 1];
    }
  }

  /** memset(a + off, c, count). */
  method Memset(a: array<char>, off: nat, c: char, count: nat)
    requires off + count <= a.Length
    modifies a
    ensures forall k :: off <= k < off + count ==> a[k] == c
    ensures forall k :: 0 <= k < a.Length && !(off <= k < off + count) ==> a[k] == old(a[k])
  {
    for j := off to off + count
      invariant forall k :: off <= k < j ==> a[k] == c
      invariant forall k :: 0 <= k < a.Length && !(off <= k < j) ==> a[k] == old(a[k])
    {
      a[j] := c;
    }
  }

  /** strlen(a + off): the distance from off to the first NUL at or after it.
      C demands that such a NUL exists inside the buffer. */
  method Strlen(a: array<char>, off: nat) returns (n: nat)
    requires exists k :: off <= k < a.Length && a[k] == NUL
    ensures off + n < a.Length && a[off + n] == NUL
    ensures forall k :: off <= k < off + n ==> a[k] != NUL
  {
    ghost var w :| off <= w < a.Length && a[w] == NUL;
    n := 0;
    while a[off + n] != NUL
      invariant off + n <= w
      invariant forall k :: off <= k < off + n ==> a[k] != NUL
      decreases w - (off + n)
    {
      n := n + 1;
    }
  }

  /** _itoa(value, a + off, 10) for a non-negative value: the decimal digits of value,
      then a NUL, written at off; nothing else in a changes. The digits are counted first,
      then written from the least significant one backwards. */
  method Itoa(value: nat, a: array<char>, off: nat)
    requires off + |DecimalDigits(value)| < a.Length
    modifies a
    ensures a[off..off + |DecimalDigits(value)|] == DecimalDigits(value)
    ensures a[off + |DecimalDigits(value)|] == NUL
    ensures forall k :: 0 <= k < a.Length && !(off <= k <= off + |DecimalDigits(value)|) ==> a[k] == old(a[k])
  {
    ghost var digits := DecimalDigits(value);
    var len := 1;
    var t := value;
    while t >= 10
      invariant len + |DecimalDigits(t)| - 1 == |digits|
      decreases t
    {
      t := t / 10;
      len := len + 1;
    }
    a[off + len] := NUL;
    var m, p := value, len;
    while m >= 10
      invariant 1 <= p <= len
      invariant p == |DecimalDigits(m)|
      invariant digits == DecimalDigits(m) + a[off + p..off + len]
      invariant a[off + len] == NUL
      invariant forall k :: 0 <= k < a.Length && !(off <= k <= off + len) ==> a[k] == old(a[k])
      decreases m
    {
      a[off + p - 1] := DigitChar(m % 10);
      assert DecimalDigits(m) == DecimalDigits(m / 10) + [DigitChar(m % 10)];
      m, p := m / 10, p - 1;
      assert a[off + p..off + len] == [a[off + p]] + a[off + p + 1..off + len];
    }
    a[off] := DigitChar(m);
    assert a[off..off + len] == [a[off]] + a[off + 1..off + len];
  }
}
