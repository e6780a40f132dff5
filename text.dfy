/**
 * The parts of Go's `strings`, `strconv` and `path/filepath` packages that the
 * scanner core uses, on strings as sequences of characters. Case mapping and
 * white space are ASCII.
 */
module Text {

  predicate HasPrefix(s: string, p: string) {
    |p| <= |s| && s[..|p|] == p
  }

  predicate HasSuffix(s: string, p: string) {
    |p| <= |s| && s[|s| - |p|..] == p
  }

  /** `strings.Contains`: `sub` occurs somewhere in `s`. */
  predicate Contains(s: string, sub: string) {
    exists i | 0 <= i <= |s| - |sub| :: HasPrefix(s[i..], sub)
  }

  /** `strings.Index` for a one-character needle: the first position of `c`, or -1. */
  function Index(s: string, c: char): (r: int)
    ensures -1 <= r < |s|
    ensures r == -1 <==> c !in s
    ensures 0 <= r ==> s[r] == c && c !in s[..r]
  {
    if s == [] then -1
    else if s[0] == c then 0
    else
      var k := Index(s[1..], c);
      if k < 0 then -1
      else
        assert s[..k + 1] == [s[0]] + s[1..][..k];
        k + 1
  }

  /** A character found at `i` and nowhere before it is found by `Index` at `i`. */
  lemma IndexAt(s: string, c: char, i: int)
    requires 0 <= i < |s| && s[i] == c && c !in s[..i]
    ensures Index(s, c) == i
  {
  }

  lemma PrefixOfShorter(s: string, j: nat, sub: string)
    requires |s| > 0 && j + |sub| <= |s| - 1
    ensures HasPrefix(s[j..], sub) == HasPrefix(s[..|s| - 1][j..], sub)
  {
    assert s[j..][..|sub|] == s[..|s| - 1][j..][..|sub|];
  }

  /** `strings.LastIndex`: the last position at which `sub` starts in `s`, or -1. */
  function LastIndex(s: string, sub: string): (r: int)
    ensures r == -1 || 0 <= r <= |s| - |sub|
    ensures 0 <= r ==> HasPrefix(s[r..], sub)
    ensures forall j | r < j <= |s| - |sub| :: !HasPrefix(s[j..], sub)
    decreases |s|
  {
    if |s| < |sub| then -1
    else if HasPrefix(s[|s| - |sub|..], sub) then |s| - |sub|
    else
      var r := LastIndex(s[..|s| - 1], sub);
      assert r >= 0 ==> HasPrefix(s[r..], sub) by {
        if r >= 0 {
          PrefixOfShorter(s, r, sub);
        }
      }
      forall j | r < j <= |s| - |sub| ensures !HasPrefix(s[j..], sub) {
        if j < |s| - |sub| {
          PrefixOfShorter(s, j, sub);
        }
      }
      r
  }

  /** `strings.Replace(s, target, replacement, 1)` for one-character strings. */
  function ReplaceFirst(s: string, target: char, replacement: char): (r: string)
    ensures |r| == |s|
    ensures forall j | 0 <= j < |s| :: r[j] == (if j == Index(s, target) then replacement else s[j])
  {
    var i := Index(s, target);
    if i < 0 then s else s[..i] + [replacement] + s[i + 1..]
  }

  function UpperChar(c: char): char {
    if 'a' <= c <= 'z' then (c as int - 32) as char else c
  }

  function LowerChar(c: char): char {
    if 'A' <= c <= 'Z' then (c as int + 32) as char else c
  }

  /** `strings.ToUpper` on ASCII letters. */
  function ToUpper(s: string): (r: string)
    ensures |r| == |s|
    ensures forall i | 0 <= i < |s| :: r[i] == UpperChar(s[i])
  {
    seq(|s|, i requires 0 <= i < |s| => UpperChar(s[i]))
  }

  /** `strings.ToLower` on ASCII letters. */
  function ToLower(s: string): (r: string)
    ensures |r| == |s|
    ensures forall i | 0 <= i < |s| :: r[i] == LowerChar(s[i])
  {
    seq(|s|, i requires 0 <= i < |s| => LowerChar(s[i]))
  }

  /** Lower-casing forgets any earlier change of case. */
  lemma LowerForgetsCase(s: string)
    ensures ToLower(ToUpper(s)) == ToLower(s)
    ensures ToLower(ToLower(s)) == ToLower(s)
  {
    var u, l := ToUpper(s), ToLower(s);
    forall i | 0 <= i < |s| ensures ToLower(u)[i] == l[i] && ToLower(l)[i] == l[i] {
      assert u[i] == UpperChar(s[i]);
      assert l[i] == LowerChar(s[i]);
    }
  }

  predicate IsSpace(c: char) {
    c == ' ' || c == '\t' || c == '\n' || c == '\r' || c as int == 11 || c as int == 12
  }

  function TrimLeft(s: string): (r: string)
    ensures r == [] || !IsSpace(r[0])
    ensures |r| <= |s| && r == s[|s| - |r|..]
  {
    if s != [] && IsSpace(s[0]) then TrimLeft(s[1..]) else s
  }

  function TrimRight(s: string): (r: string)
    ensures r == [] || !IsSpace(r[|r| - 1])
    ensures |r| <= |s| && r == s[..|r|]
  {
    if s != [] && IsSpace(s[|s| - 1]) then TrimRight(s[..|s| - 1]) else s
  }

  /** `strings.TrimSpace`: drop leading and trailing white space. */
  function TrimSpace(s: string): (r: string)
    ensures r == [] || (!IsSpace(r[0]) && !IsSpace(r[|r| - 1]))
  {
    TrimRight(TrimLeft(s))
  }

  function Digit(d: nat): (c: char)
    requires d < 10
    ensures '0' <= c <= '9'
  {
    ('0' as int + d) as char
  }

  /** Decimal text of a natural number, most significant digit first. */
  function NatText(n: nat): (r: string)
    ensures |r| >= 1
    ensures forall i | 0 <= i < |r| :: '0' <= r[i] <= '9'
    ensures (|r| == 1) == (n < 10)
    decreases n
  {
    if n < 10 then [Digit(n)] else NatText(n / 10) + [Digit(n % 10)]
  }

  /** `strconv.Itoa` and the `%d` verb. */
  function Itoa(i: int): (r: string)
    ensures r != []
    ensures ':' !in r
  {
    if i < 0 then "-" + NatText(-i) else NatText(i)
  }

  lemma {:induction false} NatTextInjective(a: nat, b: nat)
    ensures NatText(a) == NatText(b) ==> a == b
    decreases a
  {
    if NatText(a) == NatText(b) && a >= 10 {
      var sa, sb := NatText(a), NatText(b);
      assert b >= 10;
      assert sa[|sa| - 1] == Digit(a % 10) && sb[|sb| - 1] == Digit(b % 10);
      assert sa[..|sa| - 1] == NatText(a / 10) && sb[..|sb| - 1] == NatText(b / 10);
      NatTextInjective(a / 10, b / 10);
    }
  }

  /** Distinct integers have distinct decimal texts. */
  lemma ItoaInjective(a: int, b: int)
    ensures Itoa(a) == Itoa(b) ==> a == b
  {
    if a < 0 && b < 0 {
      assert Itoa(a)[1..] == NatText(-a) && Itoa(b)[1..] == NatText(-b);
      NatTextInjective(-a, -b);
    } else if a >= 0 && b >= 0 {
      NatTextInjective(a, b);
    } else if a < 0 {
      assert Itoa(a)[0] == '-' && Itoa(b)[0] != '-';
    } else {
      assert Itoa(b)[0] == '-' && Itoa(a)[0] != '-';
    }
  }

  /** `filepath.IsAbs` on a Unix host. */
  predicate IsAbs(path: string) {
    HasPrefix(path, "/")
  }

  /** `filepath.Join` of two elements, without the lexical clean-up that Go also applies. */
  function Join(dir: string, path: string): (r: string)
    ensures dir == "" ==> r == path
    ensures dir != "" && path != "" ==> HasPrefix(r, dir) && HasSuffix(r, path)
  {
    if dir == "" then path
    else if path == "" then dir
    else if HasSuffix(dir, "/") then dir + path
    else dir + "/" + path
  }

  /** `filepath.Base` of a path without a trailing separator: the text after the last '/'. */
  function Base(path: string): (r: string)
    ensures HasSuffix(path, r)
  {
    var i := LastIndex(path, "/");
    if i < 0 then path else path[i + 1..]
  }

  // Sequence identities over generic elements, which are cheap to prove
  // there and expensive to rediscover on sequences of strings.

  lemma EmptyConcat<T>(a: seq<T>)
    ensures [] + a == a && a + [] == a
  {
  }

  lemma ConcatAssoc<T>(a: seq<T>, b: seq<T>, c: seq<T>, d: seq<T>)
    ensures a + b + c + d == a + (b + c + d)
  {
  }

  lemma TakeNext<T>(s: seq<T>, a: seq<T>, j: nat)
    requires j < |s|
    ensures s[..j + 1] == s[..j] + [s[j]]
    ensures a + s[..j] + [s[j]] == a + s[..j + 1]
  {
  }

  /** A prefix that runs past position `i` is the text before it, the element at it and some of the rest. */
  lemma TakePast<T>(e: seq<T>, i: nat, n: nat)
    requires i + 1 + n <= |e|
    ensures e[..i + 1 + n] == e[..i] + [e[i]] + e[i + 1..][..n]
  {
  }
}
