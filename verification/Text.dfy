/** The string operations the rest of the model is written in: Python's whitespace,
    `str.split()`, `" ".join`, ASCII case folding, and counting over sequences. */
module Text {

  datatype Option<+T> = None | Some(value: T)

  /** Python's `str.isspace` characters: the separators of an argument-less `str.split()`. */
  predicate IsSpace(c: char) {
    var n := c as int;
    || 9 <= n <= 13
    || 28 <= n <= 32
    || n == 0x85 || n == 0xA0 || n == 0x1680
    || 0x2000 <= n <= 0x200A
    || n == 0x2028 || n == 0x2029 || n == 0x202F || n == 0x205F || n == 0x3000
  }

  /** What `str.split()` can return as one token: not empty, no whitespace. */
  predicate Token(s: string) {
    s != "" && forall i :: 0 <= i < |s| ==> !IsSpace(s[i])
  }

  predicate Tokens(ts: seq<string>) {
    forall i :: 0 <= i < |ts| ==> Token(ts[i])
  }

  /** The longest whitespace-free prefix. */
  function Word(s: string): (w: string)
    ensures w <= s
    ensures forall i :: 0 <= i < |w| ==> !IsSpace(w[i])
    ensures |w| < |s| ==> IsSpace(s[|w|])
  {
    if s == "" || IsSpace(s[0]) then "" else [s[0]] + Word(s[1..])
  }

  /** `s.split()` */
  function Split(s: string): (ts: seq<string>)
    ensures Tokens(ts)
  {
    if s == "" then []
    else if IsSpace(s[0]) then Split(s[1..])
    else [Word(s)] + Split(s[|Word(s)|..])
  }

  /** `" ".join(ts)` */
  function Join(ts: seq<string>): string {
    if ts == [] then ""
    else if |ts| == 1 then ts[0]
    else ts[0] + " " + Join(ts[1..])
  }

  lemma {:induction false} WordOf(t: string, rest: string)
    requires forall i :: 0 <= i < |t| ==> !IsSpace(t[i])
    requires rest == "" || IsSpace(rest[0])
    ensures Word(t + rest) == t
  {
    if t == "" {
      assert t + rest == rest;
    } else {
      assert (t + rest)[1..] == t[1..] + rest;
      WordOf(t[1..], rest);
    }
  }

  lemma {:induction false} SplitStep(t: string, rest: string)
    requires Token(t)
    requires rest == "" || IsSpace(rest[0])
    ensures Split(t + rest) == [t] + Split(rest)
  {
    WordOf(t, rest);
    assert (t + rest)[0] == t[0];
    assert (t + rest)[|t|..] == rest;
  }

  /** Joining tokens with single spaces and splitting gives the tokens back. */
  lemma {:induction false} SplitJoin(ts: seq<string>)
    requires Tokens(ts)
    ensures Split(Join(ts)) == ts
  {
    if ts == [] {
    } else if |ts| == 1 {
      assert ts[0] + "" == ts[0];
      SplitStep(ts[0], "");
    } else {
      var rest := " " + Join(ts[1..]);
      assert Join(ts) == ts[0] + rest;
      SplitStep(ts[0], rest);
      assert rest[1..] == Join(ts[1..]);
      SplitJoin(ts[1..]);
    }
  }

  /** A separating space splits a text into the tokens of its two sides. */
  lemma {:induction false} SplitSpace(x: string, y: string)
    ensures Split(x + " " + y) == Split(x) + Split(y)
    decreases |x|
  {
    hide Word;
    var all := x + " " + y;
    if x == "" {
      assert all == " " + y && all[1..] == y && IsSpace(all[0]);
      assert Split(all) == Split(y);
      assert Split(x) == [];
      assert [] + Split(y) == Split(y);
    } else if IsSpace(x[0]) {
      assert all[1..] == x[1..] + " " + y;
      SplitSpace(x[1..], y);
      assert all[0] == x[0];
      assert Split(all) == Split(all[1..]);
      assert Split(x) == Split(x[1..]);
    } else {
      var w, tail := Word(x), x[|Word(x)|..];
      WordStarts(x);
      var rest := tail + " " + y;
      assert all == w + rest;
      SplitStep(w, rest);
      SplitSpace(tail, y);
      assert Split(all) == [w] + Split(rest);
      assert Split(x) == [w] + Split(tail);
      assert [w] + (Split(tail) + Split(y)) == [w] + Split(tail) + Split(y);
    }
  }

  lemma {:induction false} WordStarts(x: string)
    requires x != "" && !IsSpace(x[0])
    ensures Token(Word(x))
  {
  }

  lemma {:induction false} TokenSplits(t: string)
    ensures Token(t) <==> Split(t) == [t]
  {
    if Token(t) { SplitJoin([t]); }
    if Split(t) == [t] { assert Token(Split(t)[0]); }
  }

  lemma {:induction false} JoinConcat(a: seq<string>, b: seq<string>)
    requires a != [] && b != []
    ensures Join(a + b) == Join(a) + " " + Join(b)
  {
    if |a| == 1 {
      assert (a + b)[1..] == b;
    } else {
      assert (a + b)[1..] == a[1..] + b;
      JoinConcat(a[1..], b);
    }
  }

  /** Every character of `Join(ts)` is a space or comes from one of the tokens. */
  lemma {:induction false} JoinCharacters(ts: seq<string>, c: char)
    requires c in Join(ts)
    ensures c == ' ' || exists i :: 0 <= i < |ts| && c in ts[i]
  {
    if |ts| > 1 {
      if c in ts[0] {
      } else if c != ' ' {
        JoinCharacters(ts[1..], c);
        var i :| 0 <= i < |ts[1..]| && c in ts[1..][i];
        assert ts[i + 1] == ts[1..][i];
      }
    }
  }

  /** Every character of a token of `Split(s)` occurs in `s`. */
  lemma {:induction false} SplitCharacters(s: string, i: nat, c: char)
    requires i < |Split(s)| && c in Split(s)[i]
    ensures c in s
  {
    if IsSpace(s[0]) {
      SplitCharacters(s[1..], i, c);
    } else if i > 0 {
      SplitCharacters(s[|Word(s)|..], i - 1, c);
    }
  }

  function LeftStrip(s: string): string {
    if s != "" && IsSpace(s[0]) then LeftStrip(s[1..]) else s
  }

  function RightStrip(s: string): string {
    if s != "" && IsSpace(s[|s| - 1]) then RightStrip(s[..|s| - 1]) else s
  }

  /** `s.strip()` */
  function Strip(s: string): string {
    RightStrip(LeftStrip(s))
  }

  /** `s.rsplit(c, 1)[-1]` */
  function AfterLast(s: string, c: char): string {
    if s == "" || s[|s| - 1] == c then "" else AfterLast(s[..|s| - 1], c) + [s[|s| - 1]]
  }

  /** Up to the first character of `stops`. */
  function Before(s: string, stops: string): (p: string)
    ensures p <= s && (|p| < |s| ==> s[|p|] in stops)
  {
    if s == "" || s[0] in stops then "" else [s[0]] + Before(s[1..], stops)
  }

  /** The decimal digits of a number. */
  function Digits(n: nat): string {
    (if n < 10 then "" else Digits(n / 10)) + [((n % 10) + ('0' as int)) as char]
  }

  function LowerChar(c: char): char {
    if 'A' <= c <= 'Z' then (c as int + 32) as char else c
  }

  function Lower(s: string): (r: string)
    ensures |r| == |s|
    ensures forall i :: 0 <= i < |s| ==> r[i] == LowerChar(s[i])
  {
    seq(|s|, i requires 0 <= i < |s| => LowerChar(s[i]))
  }

  /** How many elements satisfy `p`. */
  function Count<T>(s: seq<T>, p: T -> bool): nat {
    if s == [] then 0 else (if p(s[0]) then 1 else 0) + Count(s[1..], p)
  }

  lemma {:induction false} CountConcat<T>(a: seq<T>, b: seq<T>, p: T -> bool)
    ensures Count(a + b, p) == Count(a, p) + Count(b, p)
  {
    if a == [] {
      assert a + b == b;
    } else {
      assert (a + b)[1..] == a[1..] + b;
      CountConcat(a[1..], b, p);
    }
  }

  lemma {:induction false} CountPush<T>(s: seq<T>, x: T, p: T -> bool)
    ensures Count(s + [x], p) == Count(s, p) + (if p(x) then 1 else 0)
  {
    CountConcat(s, [x], p);
  }

  lemma CountUpdate<T>(s: seq<T>, i: nat, x: T, p: T -> bool)
    requires i < |s|
    ensures Count(s[i := x], p) + (if p(s[i]) then 1 else 0) == Count(s, p) + (if p(x) then 1 else 0)
  {
    assert s == s[..i] + [s[i]] + s[i + 1..];
    assert s[i := x] == s[..i] + [x] + s[i + 1..];
    CountConcat(s[..i] + [s[i]], s[i + 1..], p);
    CountConcat(s[..i] + [x], s[i + 1..], p);
    CountPush(s[..i], s[i], p);
    CountPush(s[..i], x, p);
  }

  lemma {:induction false} CountWithout<T>(s: seq<T>, i: nat, p: T -> bool)
    requires i < |s|
    ensures Count(s, p) == (if p(s[i]) then 1 else 0) + Count(s[..i] + s[i + 1..], p)
  {
    assert s == s[..i] + [s[i]] + s[i + 1..];
    CountConcat(s[..i] + [s[i]], s[i + 1..], p);
    CountPush(s[..i], s[i], p);
    CountConcat(s[..i], s[i + 1..], p);
  }

  lemma MultisetWithout<T>(s: seq<T>, i: nat)
    requires i < |s|
    ensures multiset(s[..i] + s[i + 1..]) == multiset(s) - multiset{s[i]}
  {
    assert s == s[..i] + [s[i]] + s[i + 1..];
  }

  /** Counting sees only the multiset of elements. */
  lemma {:induction false} CountPermutation<T>(a: seq<T>, b: seq<T>, p: T -> bool)
    requires multiset(a) == multiset(b)
    ensures Count(a, p) == Count(b, p)
  {
    if a == [] {
      assert |multiset(b)| == 0;
    } else {
      assert a[0] in multiset(b);
      var j :| 0 <= j < |b| && b[j] == a[0];
      CountWithout(b, j, p);
      MultisetWithout(b, j);
      assert a == [a[0]] + a[1..];
      CountPermutation(a[1..], b[..j] + b[j + 1..], p);
    }
  }

  lemma {:induction false} CountAll<T>(s: seq<T>, p: T -> bool)
    ensures Count(s, p) <= |s|
    ensures Count(s, p) == 0 <==> forall i :: 0 <= i < |s| ==> !p(s[i])
  {
    if s != [] {
      CountAll(s[1..], p);
      assert forall i :: 0 < i < |s| ==> s[i] == s[1..][i - 1];
      assert forall i :: 0 <= i < |s[1..]| ==> s[1..][i] == s[i + 1];
    }
  }

  // -- Filters -------------------------------------------------------------------------------------

  /** `sub` holds the elements of `whole` that satisfy `p`, each as often and in the order there: the
      element at `i` comes after as many as satisfy `p` before it. */
  ghost predicate Filters<T(!new)>(sub: seq<T>, whole: seq<T>, p: T -> bool) {
    && |sub| == Count(whole, p)
    && forall i :: 0 <= i < |whole| && p(whole[i]) ==> Count(whole[..i], p) < |sub| && sub[Count(whole[..i], p)] == whole[i]
  }

  lemma FiltersNothing<T(!new)>(p: T -> bool)
    ensures Filters([], [], p)
  {
  }

  lemma {:induction false} FiltersMore<T(!new)>(sub: seq<T>, whole: seq<T>, x: T, p: T -> bool)
    requires Filters(sub, whole, p)
    ensures Filters(sub + if p(x) then [x] else [], whole + [x], p)
  {
    var all, more := whole + [x], sub + if p(x) then [x] else [];
    CountPush(whole, x, p);
    forall i | 0 <= i < |all| && p(all[i]) ensures Count(all[..i], p) < |more| && more[Count(all[..i], p)] == all[i] {
      if i < |whole| { assert all[..i] == whole[..i]; } else { assert all[..i] == whole; }
    }
  }
}
