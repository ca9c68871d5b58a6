// Reading a table of integers: one pass sizes it, a second fills it, both by cutting the text in place.
module Table2d {
  import opened Arith
  import opened Wrappers

  const NUL: char := '\0'
  const LINE_ENDS := "\r\n"
  const SEPARATORS := "\t, "

  // ----- tokens of a text -----

  /** How many leading characters are no delimiters. */
  ghost function WordLength(s: string, delims: string): (k: nat)
    ensures k <= |s| && (k < |s| ==> s[k] in delims) && forall i :: 0 <= i < k ==> s[i] !in delims
  {
    if s == [] || s[0] in delims then 0 else 1 + WordLength(s[1..], delims)
  }

  /** The maximal runs of non-delimiters. */
  ghost function Tokens(s: string, delims: string): seq<string>
    decreases |s|
  {
    if s == [] then []
    else if s[0] in delims then Tokens(s[1..], delims)
    else
      var k := WordLength(s, delims);
      [s[..k]] + Tokens(s[k..], delims)
  }

  ghost function Join(tokens: seq<string>): string {
    if tokens == [] then [] else tokens[0] + Join(tokens[1..])
  }

  ghost function WithoutDelims(s: string, delims: string): string {
    if s == [] then []
    else if s[0] in delims then WithoutDelims(s[1..], delims)
    else [s[0]] + WithoutDelims(s[1..], delims)
  }

  lemma {:induction false} WordStays(s: string, k: nat, delims: string)
    requires k <= |s| && forall i :: 0 <= i < k ==> s[i] !in delims
    ensures WithoutDelims(s, delims) == s[..k] + WithoutDelims(s[k..], delims)
  {
    if k > 0 {
      WordStays(s[1..], k - 1, delims);
    }
  }

  /** Cutting loses nothing but delimiters, and leaves none inside a token and no token empty. */
  lemma {:induction false} TokensConserve(s: string, delims: string)
    ensures Join(Tokens(s, delims)) == WithoutDelims(s, delims)
    ensures forall t :: t in Tokens(s, delims) ==> t != [] && forall i :: 0 <= i < |t| ==> t[i] !in delims
    decreases |s|
  {
    if s != [] {
      if s[0] in delims {
        TokensConserve(s[1..], delims);
      } else {
        var k := WordLength(s, delims);
        TokensConserve(s[k..], delims);
        WordStays(s, k, delims);
      }
    }
  }

  /** The characters from p on, up to the first NUL. */
  ghost function Text(a: seq<char>, p: nat): string
    decreases |a| - p
  {
    if p >= |a| || a[p] == NUL then [] else [a[p]] + Text(a, p + 1)
  }

  lemma {:induction false} TextSame(a: seq<char>, b: seq<char>, p: nat)
    requires |a| == |b| && forall i :: p <= i < |a| ==> a[i] == b[i]
    ensures Text(a, p) == Text(b, p)
    decreases |a| - p
  {
    if p < |a| && a[p] != NUL {
      TextSame(a, b, p + 1);
    }
  }

  /** With no NUL before p, the text from `from` is the part before p and the text from p. */
  lemma {:induction false} TextSplit(a: seq<char>, from: nat, p: nat)
    requires from <= p <= |a| && forall i :: from <= i < p ==> a[i] != NUL
    ensures Text(a, from) == a[from..p] + Text(a, p)
    decreases p - from
  {
    if from < p {
      TextSplit(a, from + 1, p);
    }
  }

  lemma {:induction false} SkipDelims(d: string, s: string, delims: string)
    requires forall i :: 0 <= i < |d| ==> d[i] in delims
    ensures Tokens(d + s, delims) == Tokens(s, delims)
  {
    if d == [] {
      assert d + s == s;
    } else {
      assert (d + s)[1..] == d[1..] + s;
      SkipDelims(d[1..], s, delims);
    }
  }

  lemma {:induction false} WordLengthOf(w: string, s: string, delims: string)
    requires forall i :: 0 <= i < |w| ==> w[i] !in delims
    requires s == [] || s[0] in delims
    ensures WordLength(w + s, delims) == |w|
  {
    if w == [] {
      assert w + s == s;
    } else {
      assert (w + s)[1..] == w[1..] + s;
      WordLengthOf(w[1..], s, delims);
    }
  }

  lemma FirstToken(d: string, w: string, s: string, delims: string)
    requires forall i :: 0 <= i < |d| ==> d[i] in delims
    requires w != [] && forall i :: 0 <= i < |w| ==> w[i] !in delims
    requires s == [] || s[0] in delims
    ensures Tokens(d + w + s, delims) == [w] + Tokens(s, delims)
  {
    assert d + w + s == d + (w + s);
    SkipDelims(d, w + s, delims);
    WordLengthOf(w, s, delims);
    assert (w + s)[..|w|] == w && (w + s)[|w|..] == s;
  }

  lemma NoToken(a: seq<char>, from: nat, p: nat, delims: string)
    requires from <= p < |a| && a[p] == NUL && forall i :: from <= i < p ==> a[i] != NUL && a[i] in delims
    ensures Tokens(Text(a, from), delims) == []
  {
    TextSplit(a, from, p);
    SkipDelims(a[from..p], [], delims);
  }

  lemma CutToken(a: seq<char>, from: nat, start: nat, end: nat, delims: string)
    requires from <= start < end < |a| && (a[end] == NUL || a[end] in delims)
    requires forall i :: from <= i < start ==> a[i] != NUL && a[i] in delims
    requires forall i :: start <= i < end ==> a[i] != NUL && a[i] !in delims
    ensures Tokens(Text(a, from), delims)
         == [a[start..end]] + Tokens(Text(a, if a[end] == NUL then end else end + 1), delims)
  {
    TextSplit(a, from, start);
    TextSplit(a, start, end);
    FirstToken(a[from..start], a[start..end], Text(a, end), delims);
    assert Text(a, from) == a[from..start] + a[start..end] + Text(a, end);
    if a[end] != NUL {
      SkipDelims([a[end]], Text(a, end + 1), delims);
    }
  }

  method SkipDelimiters(a: array<char>, from: nat, delims: string, ghost z: nat) returns (p: nat)
    requires from <= z < a.Length && a[z] == NUL
    ensures from <= p <= z && (a[p] == NUL || a[p] !in delims)
    ensures forall i :: from <= i < p ==> a[i] != NUL && a[i] in delims
  {
    p := from;
    while a[p] != NUL && a[p] in delims
      invariant from <= p <= z && forall i :: from <= i < p ==> a[i] != NUL && a[i] in delims
      decreases z - p
    {
      p := p + 1;
    }
  }

  method SkipWord(a: array<char>, from: nat, delims: string, ghost z: nat) returns (p: nat)
    requires from <= z < a.Length && a[z] == NUL
    ensures from <= p <= z && (a[p] == NUL || a[p] in delims)
    ensures forall i :: from <= i < p ==> a[i] != NUL && a[i] !in delims
  {
    p := from;
    while a[p] != NUL && a[p] !in delims
      invariant from <= p <= z && forall i :: from <= i < p ==> a[i] != NUL && a[i] !in delims
      decreases z - p
    {
      p := p + 1;
    }
  }

  /** strtok_r from a saved position: cuts the next token out with a NUL and saves where to go on.
      It stays within the terminated text it works on, whose NUL is at z. */
  method StrTok(a: array<char>, from: nat, delims: string, ghost z: nat)
    returns (token: Option<nat>, end: nat, save: nat)
    requires from <= z < a.Length && a[z] == NUL
    modifies a
    ensures from <= save <= z && a[z] == NUL
    ensures forall i :: 0 <= i < a.Length && !(from <= i < save) ==> a[i] == old(a[i])
    ensures token.None? ==> Tokens(old(Text(a[..], from)), delims) == []
    ensures token.Some? ==> from <= token.value < end <= save && a[end] == NUL
    ensures token.Some? ==> Text(a[..], token.value) == a[token.value..end]
    ensures token.Some? ==>
              Tokens(old(Text(a[..], from)), delims) == [a[token.value..end]] + Tokens(Text(a[..], save), delims)
  {
    hide Tokens;
    ghost var was := a[..];
    var start := SkipDelimiters(a, from, delims, z);
    if a[start] == NUL {
      NoToken(was, from, start, delims);
      return None, 0, start;
    }
    var p := SkipWord(a, start, delims, z);
    CutToken(was, from, start, p, delims);
    token, end := Some(start), p;
    if a[p] == NUL {
      save := p;
    } else {
      a[p] := NUL;
      save := p + 1;
      TextSame(was, a[..], p + 1);
    }
    TextSplit(a[..], start, end);
    assert a[start..end] == was[start..p];
  }

  // ----- sizing and filling -----

  ghost function Lines(text: string): seq<string> {
    Tokens(text, LINE_ENDS)
  }

  ghost function Cells(line: string): seq<string> {
    Tokens(line, SEPARATORS)
  }

  /** The most cells any of the first n lines has. */
  ghost function Widest(lines: seq<string>, n: nat): (w: nat)
    requires n <= |lines|
    ensures forall i :: 0 <= i < n ==> |Cells(lines[i])| <= w
    ensures w == 0 || exists i :: 0 <= i < n && |Cells(lines[i])| == w
  {
    if n == 0 then 0
    else
      var w := Widest(lines, n - 1);
      if w < |Cells(lines[n - 1])| then |Cells(lines[n - 1])| else w
  }

  lemma WidestMore(lines: seq<string>, n: nat)
    requires n <= |lines|
    ensures Widest(lines, 0) == 0
    ensures n < |lines| ==>
              var w, count := Widest(lines, n), |Cells(lines[n])|;
              Widest(lines, n + 1) == if w < count then count else w
  {
    hide Cells;
  }

  /** What is left to read: the current token and those of the text after it. */
  ghost predicate Ahead(a: seq<char>, token: Option<nat>, end: nat, save: nat, z: nat, rest: seq<string>,
                        delims: string) {
    && save <= z < |a| && a[z] == NUL
    && match token
       case None => rest == []
       case Some(start) => start < end <= save && a[end] == NUL && Text(a, start) == a[start..end]
                           && rest == [a[start..end]] + Tokens(Text(a, save), delims)
  }

  /** Counts the cells of one cut-out line, cutting it up. */
  method CountCells(a: array<char>, start: nat, end: nat) returns (count: nat)
    requires start < end < a.Length && a[end] == NUL && Text(a[..], start) == a[start..end]
    modifies a
    ensures count == |Cells(old(a[start..end]))|
    ensures forall i :: 0 <= i < start || end <= i < a.Length ==> a[i] == old(a[i])
  {
    hide Tokens;
    ghost var rest := Cells(a[start..end]);
    count := 0;
    var token, stop, next := StrTok(a, start, SEPARATORS, end);
    while token.Some?
      invariant start <= next <= end && Ahead(a[..], token, stop, next, end, rest, SEPARATORS)
      invariant count + |rest| == |Cells(old(a[start..end]))|
      invariant forall i :: 0 <= i < start || end <= i < a.Length ==> a[i] == old(a[i])
      decreases |rest|
    {
      rest := rest[1..];
      token, stop, next := StrTok(a, next, SEPARATORS, end);
      count := count + 1;
    }
  }

  /** The most cells of a line so far, this line included; the text from position next on stays. */
  method Widen(a: array<char>, start: nat, end: nat, next: nat, rows: nat) returns (rows': nat)
    requires start < end < a.Length && a[end] == NUL && Text(a[..], start) == a[start..end] && end <= next
    modifies a
    ensures var count := |Cells(old(a[start..end]))|;
            rows' == if rows < count then count else rows
    ensures Text(a[..], next) == old(Text(a[..], next))
    ensures forall i :: 0 <= i < start || end <= i < a.Length ==> a[i] == old(a[i])
  {
    hide Text, Cells;
    ghost var before := a[..];
    var count := CountCells(a, start, end);
    TextSame(before, a[..], next);
    rows' := if rows < count then count else rows;
  }

  method Copied(data: array<char>) returns (a: array<char>)
    ensures fresh(a) && a[..] == data[..]
  {
    a := new char[data.Length](i requires 0 <= i < data.Length reads data => data[i]);
  }

  /** First pass over a copy: how many lines there are, and the most cells a line has.
      A size given by the caller is kept; a given number of lines caps the count. */
  method SizeTable(data: array<char>, lineNum: nat, rowNum: nat) returns (lines: nat, rows: nat)
    requires NUL in data[..]
    ensures var all := Lines(Text(data[..], 0));
            if lineNum > 0 && rowNum > 0 then lines == lineNum && rows == rowNum
            else && lines == (if lineNum > 0 && lineNum < |all| then lineNum else |all|)
                 && rows == if rowNum > 0 then rowNum else Widest(all, lines)
  {
    hide Tokens, Text, Cells, Widest;
    if lineNum > 0 && rowNum > 0 {
      return lineNum, rowNum;
    }
    ghost var all := Lines(Text(data[..], 0));
    ghost var z: nat :| z < data.Length && data[z] == NUL;
    var a := Copied(data);
    ghost var rest := all;
    lines, rows := 0, rowNum;
    WidestMore(all, 0);
    var token, end, next := StrTok(a, 0, LINE_ENDS, z);
    while token.Some? && (lineNum == 0 || lineNum > lines)
      invariant Ahead(a[..], token, end, next, z, rest, LINE_ENDS)
      invariant lines <= |all| && rest == all[lines..] && (lineNum > 0 ==> lines <= lineNum)
      invariant rows == if rowNum > 0 then rowNum else Widest(all, lines)
      decreases |rest|
    {
      assert all[lines] == a[token.value..end];
      if rowNum == 0 {
        WidestMore(all, lines);
        rows := Widen(a, token.value, end, next, rows);
      }
      rest := rest[1..];
      token, end, next := StrTok(a, next, LINE_ENDS, z);
      lines := lines + 1;
    }
  }

  // value is strtol: the integer a cell's text stands for.

  ghost function CellValue(value: string -> int, lines: seq<string>, i: nat, j: nat): int {
    if i < |lines| then LineValue(value, Cells(lines[i]), j, 0) else 0
  }

  ghost function LineValue(value: string -> int, cells: seq<string>, j: nat, otherwise: int): int {
    if j < |cells| then value(cells[j]) else otherwise
  }

  /** Writes the cells of one cut-out line into its stretch of the table, as many as fit. */
  method FillLine(a: array<char>, start: nat, end: nat, cells: array<int>, at: nat, rows: nat, value: string -> int)
    requires start < end < a.Length && a[end] == NUL && Text(a[..], start) == a[start..end]
    requires at + rows <= cells.Length
    modifies a, cells
    ensures forall i :: 0 <= i < start || end <= i < a.Length ==> a[i] == old(a[i])
    ensures forall k :: 0 <= k < at || at + rows <= k < cells.Length ==> cells[k] == old(cells[k])
    ensures forall k :: at <= k < at + rows ==>
              cells[k] == LineValue(value, Cells(old(a[start..end])), k - at, old(cells[k]))
  {
    hide Tokens, Text;
    ghost var all := Cells(a[start..end]);
    ghost var rest := all;
    var count := 0;
    var token, stop, next := StrTok(a, start, SEPARATORS, end);
    while token.Some? && rows > count
      invariant start <= next <= end && Ahead(a[..], token, stop, next, end, rest, SEPARATORS)
      invariant count <= |all| && count <= rows && rest == all[count..]
      invariant forall i :: 0 <= i < start || end <= i < a.Length ==> a[i] == old(a[i])
      invariant forall k :: 0 <= k < at || at + count <= k < cells.Length ==> cells[k] == old(cells[k])
      invariant forall k :: at <= k < at + count ==> cells[k] == value(all[k - at])
      decreases |rest|
    {
      assert all[count] == a[token.value..stop];
      cells[at + count] := value(a[token.value..stop]);
      rest := rest[1..];
      token, stop, next := StrTok(a, next, SEPARATORS, end);
      count := count + 1;
    }
  }

  ghost function CellAt(cells: seq<int>, rows: nat, i: nat, j: nat): int {
    if rows * i + j < |cells| then cells[rows * i + j] else 0
  }

  /** The first n lines of the table are filled in, the others zero. */
  ghost predicate FilledTo(cells: seq<int>, lines: nat, rows: nat, n: nat, value: string -> int, all: seq<string>) {
    forall i: nat, j: nat :: i < lines && j < rows ==>
      CellAt(cells, rows, i, j) == if i < n then CellValue(value, all, i, j) else 0
  }

  lemma LineFits(lines: nat, rows: nat, i: nat, j: nat)
    requires i < lines && j < rows
    ensures rows * i + j < rows * i + rows <= rows * lines
  {
    MulOrder(rows, i + 1, lines);
  }

  lemma OtherLine(rows: nat, i: nat, j: nat, n: nat)
    requires i != n && j < rows
    ensures rows * i + j < rows * n || rows * n + rows <= rows * i + j
  {
    if i < n {
      MulOrder(rows, i + 1, n);
    } else {
      MulOrder(rows, n + 1, i);
    }
  }

  /** Filling line n extends what is filled by one line. */
  lemma OneMoreLine(before: seq<int>, after: seq<int>, lines: nat, rows: nat, n: nat, value: string -> int,
                    all: seq<string>)
    requires n < lines && |before| == |after| == rows * lines && FilledTo(before, lines, rows, n, value, all)
    requires rows * n + rows <= |after|
    requires forall k :: 0 <= k < rows * n || rows * n + rows <= k < |after| ==> after[k] == before[k]
    requires forall k :: rows * n <= k < rows * n + rows ==> after[k] == CellValue(value, all, n, k - rows * n)
    ensures FilledTo(after, lines, rows, n + 1, value, all)
  {
    hide CellValue;
    forall i: nat, j: nat | i < lines && j < rows
      ensures CellAt(after, rows, i, j) == if i < n + 1 then CellValue(value, all, i, j) else 0
    {
      LineFits(lines, rows, i, j);
      if i != n {
        OtherLine(rows, i, j, n);
        assert CellAt(before, rows, i, j) == before[rows * i + j];
      }
    }
  }

  lemma LineStillZero(cells: seq<int>, lines: nat, rows: nat, n: nat, value: string -> int, all: seq<string>)
    requires n < lines && |cells| == rows * lines && FilledTo(cells, lines, rows, n, value, all)
    ensures rows * n + rows <= |cells| && forall k :: rows * n <= k < rows * n + rows ==> cells[k] == 0
  {
    MulOrder(rows, n + 1, lines);
    forall k | rows * n <= k < rows * n + rows
      ensures cells[k] == 0
    {
      assert CellAt(cells, rows, n, k - rows * n) == cells[k];
    }
  }

  lemma NothingFilled(cells: seq<int>, lines: nat, rows: nat, value: string -> int, all: seq<string>)
    requires |cells| == rows * lines && forall k :: 0 <= k < |cells| ==> cells[k] == 0
    ensures FilledTo(cells, lines, rows, 0, value, all)
  {
  }

  lemma BeyondLastLine(cells: seq<int>, lines: nat, rows: nat, n: nat, value: string -> int, all: seq<string>)
    requires FilledTo(cells, lines, rows, n, value, all) && |all| <= n <= lines
    ensures FilledTo(cells, lines, rows, lines, value, all)
  {
  }

  /** Second pass, on the text itself: every cell of the table becomes its token's value. */
  method FillTable(data: array<char>, cells: array<int>, lines: nat, rows: nat, value: string -> int)
    requires NUL in data[..]
    requires cells.Length == rows * lines && forall k :: 0 <= k < cells.Length ==> cells[k] == 0
    modifies data, cells
    ensures FilledTo(cells[..], lines, rows, lines, value, Lines(old(Text(data[..], 0))))
  {
    hide Tokens, FilledTo, CellAt, LineValue, Text;
    ghost var all := Lines(Text(data[..], 0));
    ghost var rest := all;
    ghost var z: nat :| z < data.Length && data[z] == NUL;
    var count := 0;
    NothingFilled(cells[..], lines, rows, value, all);
    var token, end, next := StrTok(data, 0, LINE_ENDS, z);
    while token.Some? && lines > count
      invariant Ahead(data[..], token, end, next, z, rest, LINE_ENDS)
      invariant count <= |all| && count <= lines && rest == all[count..]
      invariant FilledTo(cells[..], lines, rows, count, value, all)
      decreases |rest|
    {
      assert all[count] == data[token.value..end];
      ghost var text, before := data[..], cells[..];
      LineStillZero(before, lines, rows, count, value, all);
      var at := rows * count;
      FillLine(data, token.value, end, cells, at, rows, value);
      TextSame(text, data[..], next);
      forall k | at <= k < at + rows
        ensures cells[..][k] == CellValue(value, all, count, k - at)
      {
        assert before[k] == 0;
      }
      OneMoreLine(before, cells[..], lines, rows, count, value, all);
      rest := rest[1..];
      token, end, next := StrTok(data, next, LINE_ENDS, z);
      count := count + 1;
    }
    if count < lines {
      BeyondLastLine(cells[..], lines, rows, count, value, all);
    }
  }

  /** The table of a text, or none when it has no lines or no cells. Both sizes from the caller are kept as they
      are; a number of lines alone is a limit. Without a row size every cell of the lines read has its place. */
  method ReadTable(data: array<char>, lineNum: nat, rowNum: nat, value: string -> int)
    returns (ok: bool, lines: nat, rows: nat, cells: array<int>)
    requires NUL in data[..]
    modifies data
    ensures ok <==> lines > 0 && rows > 0
    ensures ok ==> fresh(cells) && cells.Length == rows * lines
                   && FilledTo(cells[..], lines, rows, lines, value, Lines(old(Text(data[..], 0))))
    ensures var all := Lines(old(Text(data[..], 0)));
            if lineNum > 0 && rowNum > 0 then lines == lineNum && rows == rowNum
            else && lines == (if lineNum > 0 && lineNum < |all| then lineNum else |all|)
                 && rows == if rowNum > 0 then rowNum else Widest(all, lines)
    ensures var all := Lines(old(Text(data[..], 0)));
            rowNum == 0 ==> forall i :: 0 <= i < lines ==> |Cells(all[i])| <= rows
  {
    hide Tokens, FilledTo;
    lines, rows := SizeTable(data, lineNum, rowNum);
    ok := lines > 0 && rows > 0;
    MulOrder(rows, 0, lines);
    cells := new int[rows * lines](_ => 0);
    if ok {
      FillTable(data, cells, lines, rows, value);
    }
  }

  // ----- putting a text together and taking it apart -----

  ghost predicate Token(t: string, delims: string) {
    t != [] && forall i :: 0 <= i < |t| ==> t[i] !in delims
  }

  lemma {:induction false} WordLengthIs(t: string, rest: string, delims: string)
    requires (forall i :: 0 <= i < |t| ==> t[i] !in delims) && (rest == [] || rest[0] in delims)
    ensures WordLength(t + rest, delims) == |t|
  {
    if t == [] {
      assert t + rest == rest;
    } else {
      assert (t + rest)[1..] == t[1..] + rest;
      WordLengthIs(t[1..], rest, delims);
    }
  }

  lemma TokenFirst(t: string, rest: string, delims: string)
    requires Token(t, delims) && (rest == [] || rest[0] in delims)
    ensures Tokens(t + rest, delims) == [t] + Tokens(rest, delims)
  {
    WordLengthIs(t, rest, delims);
    assert (t + rest)[..|t|] == t && (t + rest)[|t|..] == rest;
  }

  /** Tokens with one delimiter between each two. */
  ghost function Spaced(tokens: seq<string>, d: char): string {
    if tokens == [] then [] else if |tokens| == 1 then tokens[0] else tokens[0] + ([d] + Spaced(tokens[1..], d))
  }

  /** Tokens put together with delimiters come apart again as they were, empty stretches aside. */
  lemma {:induction false} TokensOfSpaced(tokens: seq<string>, d: char, delims: string)
    requires d in delims && forall i :: 0 <= i < |tokens| ==> Token(tokens[i], delims)
    ensures Tokens(Spaced(tokens, d), delims) == tokens
    ensures Tokens([d] + Spaced(tokens, d), delims) == tokens
    decreases |tokens|
  {
    assert ([d] + Spaced(tokens, d))[1..] == Spaced(tokens, d);
    if tokens != [] {
      TokensOfSpaced(tokens[1..], d, delims);
      if |tokens| == 1 {
        TokenFirst(tokens[0], [], delims);
        assert tokens[0] + [] == tokens[0] && tokens == [tokens[0]];
      } else {
        TokenFirst(tokens[0], [d] + Spaced(tokens[1..], d), delims);
      }
    }
  }

  /** What a filled table holds: cell j of line i is the value of token j of line i, or 0 where there is none. */
  lemma FilledIs(cells: seq<int>, lines: nat, rows: nat, value: string -> int, all: seq<string>, i: nat, j: nat)
    requires |cells| == rows * lines && FilledTo(cells, lines, rows, lines, value, all) && i < lines && j < rows
    ensures rows * i + j < |cells|
    ensures cells[rows * i + j]
         == if i < |all| && j < |Tokens(all[i], "\t, ")| then value(Tokens(all[i], "\t, ")[j]) else 0
  {
    hide Tokens;
    LineFits(lines, rows, i, j);
    assert CellAt(cells, rows, i, j) == cells[rows * i + j];
  }
}
