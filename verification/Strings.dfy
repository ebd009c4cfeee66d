/** Splitting and joining strings, and decimals: what JavaScript's and C++'s string functions do that
    folded stacks are written and read with. */
module Strings {
  /** `s.split(c)`: never empty, one piece more than there are separators. */
  function Split(s: string, c: char): (pieces: seq<string>)
    ensures pieces != []
  {
    if s == "" then [""] else Prepend(s[0], c, Split(s[1..], c))
  }

  /** What a character in front of a text does to its pieces. */
  function Prepend(x: char, c: char, pieces: seq<string>): seq<string>
    requires pieces != []
  {
    if x == c then [""] + pieces else [[x] + pieces[0]] + pieces[1..]
  }

  function NonEmpty(pieces: seq<string>): seq<string> {
    if pieces == [] then []
    else (if pieces[0] == "" then [] else [pieces[0]]) + NonEmpty(pieces[1..])
  }

  /** The first index of `c`, or the length if there is none. */
  function IndexOf(s: string, c: char): (i: nat)
    ensures i <= |s|
    ensures forall k :: 0 <= k < i ==> s[k] != c
    ensures i < |s| ==> s[i] == c
  {
    if s == "" || s[0] == c then 0 else 1 + IndexOf(s[1..], c)
  }

  /** The last index of `c`, or -1. */
  function LastIndexOf(s: string, c: char): (i: int)
    ensures -1 <= i < |s|
    ensures forall k :: i < k < |s| ==> s[k] != c
    ensures i >= 0 ==> s[i] == c
  {
    if s == "" then -1 else if s[|s| - 1] == c then |s| - 1 else LastIndexOf(s[..|s| - 1], c)
  }

  predicate Free(s: string, c: char) {
    forall i :: 0 <= i < |s| ==> s[i] != c
  }

  lemma {:induction false} FreeConcat(a: string, b: string, c: char)
    ensures Free(a + b, c) <==> Free(a, c) && Free(b, c)
  {
    assert forall i :: 0 <= i < |a| ==> (a + b)[i] == a[i];
    assert forall i :: 0 <= i < |b| ==> (a + b)[|a| + i] == b[i];
  }

  lemma {:induction false} SplitFree(s: string, c: char)
    requires Free(s, c)
    ensures Split(s, c) == [s]
  {
    if s != "" {
      SplitFree(s[1..], c);
      assert [s[0]] + s[1..] == s;
      assert Split(s, c) == [[s[0]] + s[1..]] + [];
    }
  }

  lemma {:induction false} SplitFirst(s: string, c: char, rest: string)
    requires Free(s, c)
    ensures Split(s + [c] + rest, c) == [s] + Split(rest, c)
  {
    if s == "" {
      assert ("" + [c] + rest)[1..] == rest;
    } else {
      SplitFirst(s[1..], c, rest);
      assert (s + [c] + rest)[1..] == s[1..] + [c] + rest;
      assert [s[0]] + s[1..] == s;
      assert ([s[1..]] + Split(rest, c))[1..] == Split(rest, c);
    }
  }

  ghost predicate AllFree(pieces: seq<string>, c: char) {
    forall i :: 0 <= i < |pieces| ==> Free(pieces[i], c)
  }

  lemma {:induction false} PrependConcat(x: char, c: char, head: seq<string>, tail: seq<string>)
    requires head != []
    ensures Prepend(x, c, head + tail) == Prepend(x, c, head) + tail
  {
    assert (head + tail)[0] == head[0] && (head + tail)[1..] == head[1..] + tail;
  }

  /** Splitting a text at a separator in its middle. */
  lemma {:induction false} SplitConcat(a: string, c: char, b: string)
    ensures Split(a + [c] + b, c) == Split(a, c) + Split(b, c)
    decreases |a|
  {
    var s := a + [c] + b;
    if a == "" {
      assert s[1..] == b;
    } else {
      SplitConcat(a[1..], c, b);
      assert s[1..] == a[1..] + [c] + b;
      PrependConcat(a[0], c, Split(a[1..], c), Split(b, c));
    }
  }

  lemma {:induction false} NonEmptyConcat(a: seq<string>, b: seq<string>)
    ensures NonEmpty(a + b) == NonEmpty(a) + NonEmpty(b)
  {
    if a == [] {
      assert a + b == b;
    } else {
      NonEmptyConcat(a[1..], b);
      NonEmptyFirst(a, b);
    }
  }

  lemma {:induction false} NonEmptyFirst(a: seq<string>, b: seq<string>)
    requires a != []
    ensures NonEmpty(a + b) == (if a[0] == "" then [] else [a[0]]) + NonEmpty(a[1..] + b)
  {
    assert (a + b)[1..] == a[1..] + b && (a + b)[0] == a[0];
  }

  /** No piece contains the separator, and a piece contains nothing the text did not. */
  lemma {:induction false} PiecesAreFree(s: string, c: char, d: char)
    ensures AllFree(Split(s, c), c)
    ensures Free(s, d) ==> AllFree(Split(s, c), d)
  {
    if s != "" {
      PiecesAreFree(s[1..], c, d);
    }
  }

  lemma {:induction false} LastSeparator(a: string, c: char, b: string)
    requires Free(b, c)
    ensures LastIndexOf(a + [c] + b, c) == |a|
  {
    var s := a + [c] + b;
    var i := LastIndexOf(s, c);
    assert s[|a|] == c;
  }

  lemma {:induction false} FirstSeparator(a: string, c: char, b: string)
    requires Free(a, c)
    ensures IndexOf(a + [c] + b, c) == |a|
  {
    var s := a + [c] + b;
    var i := IndexOf(s, c);
    assert s[|a|] == c;
  }

  lemma {:induction false} NonEmptyBreaksIff(pieces: seq<string>, d: char)
    ensures AllFree(NonEmpty(pieces), d) <==> AllFree(pieces, d)
  {
    if pieces != [] {
      NonEmptyBreaksIff(pieces[1..], d);
      AllFreeFirst(pieces, d);
      if pieces[0] == "" {
        assert NonEmpty(pieces) == NonEmpty(pieces[1..]);
      } else {
        AllFreeConcat([pieces[0]], NonEmpty(pieces[1..]), d);
        AllFreeFirst([pieces[0]], d);
      }
    }
  }

  lemma {:induction false} AllFreeFirst(pieces: seq<string>, d: char)
    requires pieces != []
    ensures AllFree(pieces, d) <==> Free(pieces[0], d) && AllFree(pieces[1..], d)
  {
    assert forall i :: 0 <= i < |pieces[1..]| ==> pieces[1..][i] == pieces[i + 1];
  }

  lemma {:induction false} AllFreeConcat(a: seq<string>, b: seq<string>, c: char)
    ensures AllFree(a + b, c) <==> AllFree(a, c) && AllFree(b, c)
  {
    assert forall i :: 0 <= i < |a| ==> (a + b)[i] == a[i];
    assert forall i :: 0 <= i < |b| ==> (a + b)[|a| + i] == b[i];
  }

  // ---- replacing ----

  function Replaced(s: string, f: char -> char): string {
    seq(|s|, i requires 0 <= i < |s| => f(s[i]))
  }

  lemma {:induction false} ReplacedIsFree(s: string, f: char -> char, c: char)
    requires forall x :: f(x) != c
    ensures Free(Replaced(s, f), c)
  {
    assert forall i :: 0 <= i < |s| ==> Replaced(s, f)[i] == f(s[i]);
  }

  /** Replacing by underscores neither makes nor removes line breaks. */
  lemma {:induction false} ReplacedBreaksIff(s: string, f: char -> char)
    requires forall c :: f(c) == '\n' <==> c == '\n'
    ensures Free(Replaced(s, f), '\n') <==> Free(s, '\n')
  {
    assert forall i :: 0 <= i < |s| ==> Replaced(s, f)[i] == f(s[i]);
  }

  // ---- decimals ----

  function Digit(d: nat): char
    requires d < 10
  {
    "0123456789"[d]
  }

  function Decimal(n: nat): (s: string)
    ensures s != ""
  {
    if n < 10 then [Digit(n)] else Decimal(n / 10) + [Digit(n % 10)]
  }

  /** The number that a string of digits stands for. */
  function NumberOf(s: string): int {
    if s == "" then 0 else 10 * NumberOf(s[..|s| - 1]) + (s[|s| - 1] as int - '0' as int)
  }

  /** A decimal consists of digits, stands for its number and has no leading zero. */
  lemma {:induction false} DecimalIsTheNumber(n: nat)
    ensures NumberOf(Decimal(n)) == n
    ensures forall i :: 0 <= i < |Decimal(n)| ==> '0' <= Decimal(n)[i] <= '9'
    ensures n > 0 ==> Decimal(n)[0] != '0'
  {
    var d := Digit(n % 10);
    assert d as int == '0' as int + n % 10;
    if n >= 10 {
      DecimalIsTheNumber(n / 10);
      assert Decimal(n)[..|Decimal(n)| - 1] == Decimal(n / 10);
    } else {
      assert [d][..0] == "";
    }
  }

  lemma {:induction false} DecimalIsFree(n: nat, c: char)
    requires c !in "0123456789"
    ensures Free(Decimal(n), c)
  {
    assert forall d :: 0 <= d < 10 ==> Digit(d) in "0123456789";
    if n >= 10 {
      DecimalIsFree(n / 10, c);
    }
  }
}
