/** Helpers shared by both servers: the optional value, and the handful of C
    string library functions (strchr, strncmp, strstr, isspace, the decimal
    conversion of sprintf's %d) that the request handling relies on. A Dafny
    string stands for the bytes of a C string. */
module CStrings {

  datatype Option<T> = None | Some(value: T)

  /** isspace() in the "C" locale. */
  predicate IsSpace(c: char) {
    c == ' ' || c == '\t' || c == '\n' || c == '\r' || c == '\U{000B}' || c == '\U{000C}'
  }

  /** strncmp(s, p, |p|) == 0: s starts with p. */
  predicate StartsWith(s: string, p: string) {
    |p| <= |s| && s[..|p|] == p
  }

  /** strstr(s, p) != NULL: p occurs somewhere in s. */
  predicate Contains(s: string, p: string) {
    exists i :: 0 <= i <= |s| && StartsWith(s[i..], p)
  }

  /** Position of the first c in s, or |s| when there is none (strchr). */
  function Find(s: string, c: char): (i: nat)
    ensures i <= |s|
    ensures c !in s[..i]
    ensures i < |s| ==> s[i] == c
    ensures c !in s <==> i == |s|
  {
    if s == [] then 0
    else if s[0] == c then 0
    else 1 + Find(s[1..], c)
  }

  /** Searching a concatenation whose first part lacks c. */
  lemma {:induction false} FindAfter(a: string, b: string, c: char)
    requires c !in a
    ensures Find(a + b, c) == |a| + Find(b, c)
    decreases |a|
  {
    if a != [] {
      assert (a + b)[0] == a[0] && a[0] in a;
      assert (a + b)[1..] == a[1..] + b;
      assert forall x :: x in a[1..] ==> x in a;
      FindAfter(a[1..], b, c);
    } else {
      assert a + b == b;
    }
  }

  /** Cutting a + [c] + b at its first c gives a and b back. */
  lemma SplitAtFirst(a: string, b: string, c: char)
    requires c !in a
    ensures Find(a + [c] + b, c) == |a|
    ensures (a + [c] + b)[..|a|] == a && (a + [c] + b)[|a| + 1..] == b
  {
    assert a + [c] + b == a + ([c] + b);
    FindAfter(a, [c] + b, c);
  }

  /** What a reader of a C string sees in a buffer: everything before the
      first NUL byte. */
  function UntilNul(s: string): (r: string)
    ensures StartsWith(s, r)
    ensures '\0' !in r
    ensures |r| < |s| ==> s[|r|] == '\0'
  {
    s[..Find(s, '\0')]
  }

  /** The decimal digits sprintf's %d writes for a non-negative value. */
  function Decimal(n: nat): (r: string)
    ensures r != []
    ensures forall i :: 0 <= i < |r| ==> '0' <= r[i] <= '9'
    decreases n
  {
    if n < 10 then [Digit(n)] else Decimal(n / 10) + [Digit(n % 10)]
  }

  function Digit(d: nat): (c: char)
    requires d < 10
    ensures '0' <= c <= '9' && c as int - '0' as int == d
  {
    ('0' as int + d) as char
  }

  /** The value a string of decimal digits denotes. */
  function DecimalValue(s: string): (n: nat)
    requires forall i :: 0 <= i < |s| ==> '0' <= s[i] <= '9'
  {
    if s == [] then 0
    else DecimalValue(s[..|s| - 1]) * 10 + (s[|s| - 1] as int - '0' as int)
  }

  /** Reading back what %d wrote gives the number again. */
  lemma {:induction false} DecimalRoundTrip(n: nat)
    ensures DecimalValue(Decimal(n)) == n
    decreases n
  {
    if n >= 10 {
      var r := Decimal(n);
      assert r[..|r| - 1] == Decimal(n / 10);
      DecimalRoundTrip(n / 10);
    }
  }
}
