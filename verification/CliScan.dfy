// The two scanners of a command line: counting the parameters, and finding the n-th one.
module CliScan {
  import opened Wrappers

  /** A parameter starts at a non-space that follows a space. */
  predicate Starts(s: string, i: nat) {
    0 < i < |s| && s[i] != ' ' && s[i - 1] == ' '
  }

  /** How many parameters start before position k. */
  ghost function Count(s: string, k: nat): nat {
    if k == 0 then 0 else Count(s, k - 1) + if Starts(s, k - 1) then 1 else 0
  }

  ghost function Parameters(s: string): nat {
    Count(s, |s|)
  }

  function Int8(x: int): int {
    (x + 128) % 256 - 128
  }

  lemma Int8Up(x: int)
    ensures Int8(Int8(x) + 1) == Int8(x + 1)
  {
  }

  lemma Int8Down(x: int)
    ensures Int8(Int8(x) - 1) == Int8(x - 1)
  {
  }

  /** The eight-bit number congruent to x. */
  lemma Int8Is(x: int)
    ensures -128 <= Int8(x) <= 127 && (Int8(x) - x) % 256 == 0
    ensures -128 <= x <= 127 ==> Int8(x) == x
  {
  }

  /** Counts groups of spaces, less one at the end, in an 8-bit counter. */
  method NumberOfParameters(s: string) returns (count: int)
    ensures count == Int8(Parameters(s))
    ensures count == Parameters(s) <==> Parameters(s) <= 127
  {
    count := 0;
    var lastWasSpace := false;
    for i := 0 to |s|
      invariant lastWasSpace <==> i > 0 && s[i - 1] == ' '
      invariant count == Int8(Count(s, i) + if lastWasSpace then 1 else 0)
    {
      Int8Up(Count(s, i));
      if s[i] == ' ' {
        if !lastWasSpace {
          count := Int8(count + 1);
          lastWasSpace := true;
        }
      } else {
        lastWasSpace := false;
      }
    }
    Int8Down(Parameters(s) + 1);
    if lastWasSpace {
      count := Int8(count - 1);
    }
  }

  lemma {:induction false} OneInTwo(s: string, k: nat)
    requires 2 * k <= |s| && forall i :: 0 <= i < |s| ==> s[i] == if i % 2 == 0 then ' ' else 'x'
    ensures Count(s, 2 * k) == k
  {
    if k > 0 {
      OneInTwo(s, k - 1);
      assert Count(s, 2 * k - 1) == Count(s, 2 * k - 2);
      assert Starts(s, 2 * k - 1);
    }
  }

  /** A line of 128 parameters, for which the counter gives -128. */
  lemma CountWraps() returns (s: string)
    ensures Parameters(s) == 128 && Int8(Parameters(s)) == -128
  {
    s := seq(256, i => if i % 2 == 0 then ' ' else 'x');
    OneInTwo(s, 128);
  }

  lemma {:induction false} NoStarts(s: string, a: nat, b: nat)
    requires a <= b && forall i :: a <= i < b ==> !Starts(s, i)
    ensures Count(s, b) == Count(s, a)
  {
    if a < b {
      NoStarts(s, a, b - 1);
    }
  }

  lemma {:induction false} CountMonotone(s: string, a: nat, b: nat)
    requires a <= b
    ensures Count(s, a) <= Count(s, b)
  {
    if a < b {
      CountMonotone(s, a, b - 1);
    }
  }

  /** The n-th parameter: where it starts, and the maximal run of non-spaces from there. */
  ghost predicate IsParameter(s: string, n: nat, at: nat, len: nat) {
    && Starts(s, at) && Count(s, at) + 1 == n
    && 0 < len && at + len <= |s|
    && (forall i :: at <= i < at + len ==> s[i] != ' ')
    && (at + len == |s| || s[at + len] == ' ')
  }

  /** There is at most one n-th parameter. */
  lemma ParameterUnique(s: string, n: nat, at: nat, len: nat, at': nat, len': nat)
    requires IsParameter(s, n, at, len) && IsParameter(s, n, at', len')
    ensures at == at' && len == len'
  {
    if at < at' {
      CountMonotone(s, at + 1, at');
    } else if at' < at {
      CountMonotone(s, at' + 1, at);
    }
  }

  method SkipWord(s: string, from: nat) returns (p: nat)
    requires from <= |s|
    ensures from <= p <= |s| && (p == |s| || s[p] == ' ') && forall i :: from <= i < p ==> s[i] != ' '
  {
    p := from;
    while p < |s| && s[p] != ' '
      invariant from <= p <= |s| && forall i :: from <= i < p ==> s[i] != ' '
    {
      p := p + 1;
    }
  }

  method SkipSpaces(s: string, from: nat) returns (p: nat)
    requires from <= |s|
    ensures from <= p <= |s| && (p == |s| || s[p] != ' ') && forall i :: from <= i < p ==> s[i] == ' '
  {
    p := from;
    while p < |s| && s[p] == ' '
      invariant from <= p <= |s| && forall i :: from <= i < p ==> s[i] == ' '
    {
      p := p + 1;
    }
  }

  method GetParameter(s: string, wanted: nat) returns (at: Option<nat>, len: nat)
    ensures at.Some? <==> 1 <= wanted <= Parameters(s)
    ensures at.Some? ==> IsParameter(s, wanted, at.value, len)
    ensures at.None? ==> len == 0
  {
    at, len := None, 0;
    var found := 0;
    var p := 0;
    while found < wanted
      invariant p < |s| || p == 0
      invariant found <= wanted && (if found == 0 then p == 0 else Starts(s, p) && found < wanted)
      invariant Count(s, p) + (if found == 0 then 0 else 1) == found
      decreases |s| - p, wanted - found
    {
      var q := SkipWord(s, p);
      var r := SkipSpaces(s, q);
      NextStart(s, p, q, r);
      if r < |s| {
        found := found + 1;
        p := r;
        if found == wanted {
          var end := SkipWord(s, p);
          CountMonotone(s, p + 1, |s|);
          return Some(p), end - p;
        }
      } else {
        break;
      }
    }
    if found < wanted {
      CountMonotone(s, p, |s|);
    }
  }

  /** From a word's start, past it and the spaces after it, the next start is where one lands. */
  lemma NextStart(s: string, p: nat, q: nat, r: nat)
    requires p <= q <= r <= |s| && (p == 0 || Starts(s, p))
    requires (q == |s| || s[q] == ' ') && forall i :: p <= i < q ==> s[i] != ' '
    requires (r == |s| || s[r] != ' ') && forall i :: q <= i < r ==> s[i] == ' '
    ensures Count(s, r) == Count(s, p) + if p > 0 then 1 else 0
    ensures r < |s| ==> Starts(s, r) && r > p
  {
    if p > 0 {
      NoStarts(s, p + 1, r);
    } else {
      NoStarts(s, 0, r);
    }
  }

  // ----- a line put together from words -----

  ghost predicate Word(t: string) {
    t != [] && forall i :: 0 <= i < |t| ==> t[i] != ' '
  }

  /** A command word and its parameters, a space before each. */
  ghost function Line(word: string, params: seq<string>): string {
    if params == [] then word else Line(word, params[..|params| - 1]) + " " + params[|params| - 1]
  }

  lemma {:induction false} CountOfPrefix(s: string, u: string, k: nat)
    requires k <= |s|
    ensures Count(s + u, k) == Count(s, k)
  {
    if k > 0 {
      CountOfPrefix(s, u, k - 1);
    }
  }

  lemma OneMoreWord(s: string, t: string)
    requires s != [] && Word(t)
    ensures var u := s + " " + t;
            && Count(u, |s| + 1) == Parameters(s) && Parameters(u) == Parameters(s) + 1
            && IsParameter(u, Parameters(s) + 1, |s| + 1, |t|) && u[|s| + 1..] == t
  {
    var u := s + " " + t;
    assert u == s + (" " + t);
    CountOfPrefix(s, " " + t, |s|);
    assert !Starts(u, |s|);
    assert Starts(u, |s| + 1);
    assert Count(u, |s| + 2) == Parameters(s) + 1;
    NoStarts(u, |s| + 2, |u|);
  }

  lemma ParameterStays(s: string, t: string, n: nat, at: nat, len: nat)
    requires IsParameter(s, n, at, len)
    ensures IsParameter(s + " " + t, n, at, len) && (s + " " + t)[at..at + len] == s[at..at + len]
  {
    assert s + " " + t == s + (" " + t);
    CountOfPrefix(s, " " + t, at);
  }

  lemma {:induction false} NoParameters(word: string, k: nat)
    requires (forall i :: 0 <= i < |word| ==> word[i] != ' ') && k <= |word|
    ensures Count(word, k) == 0
  {
    if k > 0 {
      NoParameters(word, k - 1);
    }
  }

  /** A line made of a word and parameters has that many parameters, and the k-th one found is the k-th put in. */
  lemma {:induction false} LineParameters(word: string, params: seq<string>, k: nat) returns (at: nat)
    requires Word(word) && (forall i :: 0 <= i < |params| ==> Word(params[i])) && (k < |params| || params == [])
    ensures Line(word, params) != [] && Parameters(Line(word, params)) == |params|
    ensures k < |params| ==>
              && IsParameter(Line(word, params), k + 1, at, |params[k]|)
              && Line(word, params)[at..at + |params[k]|] == params[k]
  {
    hide IsParameter, Count, Starts, Line, Word, Parameters;
    at := 0;
    if params == [] {
      LineOfWord(word);
    } else {
      var n := |params| - 1;
      var front := params[..n];
      LineMore(word, params);
      at := LineParameters(word, front, if k < n then k else 0);
      OneMoreWord(Line(word, front), params[n]);
      if k < n {
        ParameterStays(Line(word, front), params[n], k + 1, at, |params[k]|);
      } else {
        at := |Line(word, front)| + 1;
        assert Line(word, params)[at..at + |params[k]|] == Line(word, params)[at..];
      }
    }
  }

  lemma LineOfWord(word: string)
    requires Word(word)
    ensures Line(word, []) == word && word != [] && Parameters(word) == 0
  {
    NoParameters(word, |word|);
  }

  lemma LineMore(word: string, params: seq<string>)
    requires params != []
    ensures var n := |params| - 1; Line(word, params) == Line(word, params[..n]) + " " + params[n]
  {
  }
}
