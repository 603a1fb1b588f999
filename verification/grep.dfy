/** The loop of user/grep.c that reads a file through a buffer of 1024 characters and prints matching lines. */
module Grep {
  import opened GrepMatch

  const ROOM: int := 1023

  /** The lines of s that end in a newline and match, newlines included. */
  ghost function Selected(re: string, s: string): string
    decreases |s|
  {
    if '\n' !in s then ""
    else
      var i := FirstNewline(s);
      (if Matches(re, s[..i]) then s[..i + 1] else "") + Selected(re, s[i + 1..])
  }

  /** What follows the last newline. */
  function Tail(s: string): (t: string)
    ensures |t| <= |s| && '\n' !in t
    decreases |s|
  {
    if '\n' !in s then s else Tail(s[FirstNewline(s) + 1..])
  }

  function FirstNewline(s: string): (i: nat)
    requires '\n' in s
    ensures i < |s| && s[i] == '\n' && '\n' !in s[..i]
  {
    if s[0] == '\n' then 0 else
      assert s == [s[0]] + s[1..];
      1 + FirstNewline(s[1..])
  }

  lemma FirstIs(s: string, i: nat)
    requires i < |s| && s[i] == '\n' && '\n' !in s[..i]
    ensures '\n' in s && FirstNewline(s) == i
  {
    assert forall k :: 0 <= k < i ==> s[..i][k] != '\n';
    var f := FirstNewline(s);
    assert forall k :: 0 <= k < f ==> s[..f][k] != '\n';
  }

  lemma FirstOfBoth(a: string, b: string)
    requires '\n' in a
    ensures '\n' in a + b && FirstNewline(a + b) == FirstNewline(a)
    ensures var i := FirstNewline(a);
            (a + b)[..i] == a[..i] && (a + b)[i + 1..] == a[i + 1..] + b && (a + b)[..i + 1] == a[..i + 1]
  {
    var i := FirstNewline(a);
    assert (a + b)[..i] == a[..i];
    FirstIs(a + b, i);
  }

  lemma {:induction false} TailThen(a: string, b: string)
    ensures Tail(a + b) == Tail(Tail(a) + b)
    decreases |a|
  {
    hide FirstNewline;
    if '\n' in a {
      FirstOfBoth(a, b);
      TailThen(a[FirstNewline(a) + 1..], b);
    }
  }

  /** Complete lines can be dealt with before the rest is known. */
  lemma {:induction false} SelectedThen(re: string, a: string, b: string)
    ensures Selected(re, a + b) == Selected(re, a) + Selected(re, Tail(a) + b)
    decreases |a|
  {
    hide Matches, FirstNewline;
    if '\n' in a {
      FirstOfBoth(a, b);
      var i := FirstNewline(a);
      var rest := a[i + 1..];
      SelectedThen(re, rest, b);
      Together(if Matches(re, a[..i]) then a[..i + 1] else "", Selected(re, rest), Selected(re, Tail(rest) + b));
    } else {
      Nothing(Selected(re, a + b));
    }
  }

  lemma Nothing(a: string)
    ensures "" + a == a
  {
  }

  lemma {:induction false} TailGrows(a: string, b: string)
    ensures |Tail(a + b)| <= |Tail(a)| + |b|
  {
    TailThen(a, b);
  }

  /** strchr(p, '\n') in the filled part of the buffer; m when there is none. */
  method FindNewline(buf: array<char>, p: int, m: int) returns (q: int)
    requires 0 <= p <= m <= buf.Length
    ensures p <= q <= m && '\n' !in buf[p..q] && (q < m ==> buf[q] == '\n')
  {
    q := p;
    while q < m && buf[q] != '\n'
      invariant p <= q <= m && '\n' !in buf[p..q]
    {
      assert buf[p..q + 1] == buf[p..q] + [buf[q]];
      q := q + 1;
    }
  }

  /** One complete line at p, told to Selected and Tail. */
  lemma LineDone(re: string, s: string, n: int)
    requires 0 <= n < |s| && s[n] == '\n' && '\n' !in s[..n]
    ensures Selected(re, s) == (if Matches(re, s[..n]) then s[..n + 1] else "") + Selected(re, s[n + 1..])
    ensures Tail(s) == Tail(s[n + 1..])
  {
    FirstIs(s, n);
  }

  /** One line, from p to its newline at q: a NUL ends the text for match, and a matching line gets its newline
      back and is printed. */
  method PrintLine(re: string, buf: array<char>, p: int, q: int) returns (out: string)
    requires 0 <= p <= q < buf.Length && buf[q] == '\n'
    modifies buf
    ensures forall k :: q < k < buf.Length ==> buf[k] == old(buf[k])
    ensures out == if Matches(re, old(buf[p..q])) then old(buf[p..q + 1]) else ""
  {
    ghost var line := buf[p..q + 1];
    buf[q] := '\0';
    assert buf[p..q] == line[..q - p];
    var found := Match(re, buf[p..q]);
    out := "";
    if found {
      buf[q] := '\n';
      out := buf[p..q + 1];
      assert out == line;
    }
  }

  /** The inner loop: prints the matching ones of the complete lines, and returns where the rest begins. */
  method PrintLines(re: string, buf: array<char>, m: int) returns (out: string, p: int)
    requires 0 <= m <= ROOM < buf.Length
    modifies buf
    ensures out == Selected(re, old(buf[..m])) && 0 <= p <= m && buf[p..m] == Tail(old(buf[..m]))
  {
    hide Selected, Tail, Matches;
    ghost var s := buf[..m];
    out, p := "", 0;
    var q := FindNewline(buf, p, m);
    while q < m
      invariant 0 <= p <= q <= m && '\n' !in buf[p..q] && (q < m ==> buf[q] == '\n')
      invariant forall k :: p <= k < m ==> buf[k] == s[k]
      invariant out + Selected(re, s[p..]) == Selected(re, s) && Tail(s[p..]) == Tail(s)
      decreases m - p
    {
      SameSlice(buf[..], s, p, q + 1);
      SameSlice(buf[..], s, p, q);
      NextLine(re, s, out, p, q);
      var line := PrintLine(re, buf, p, q);
      out := out + line;
      p := q + 1;
      q := FindNewline(buf, p, m);
    }
    SameSlice(buf[..], s, p, m);
    NoMoreLines(re, s, out, p, q);
  }

  lemma SameSlice(a: seq<char>, s: string, p: int, q: int)
    requires 0 <= p <= q <= |a| && q <= |s| && forall k :: p <= k < q ==> a[k] == s[k]
    ensures a[p..q] == s[p..q]
  {
  }

  lemma NextLine(re: string, s: string, out: string, p: int, q: int)
    requires 0 <= p <= q < |s| && '\n' !in s[p..q] && s[q] == '\n'
    requires out + Selected(re, s[p..]) == Selected(re, s) && Tail(s[p..]) == Tail(s)
    ensures (out + if Matches(re, s[p..q]) then s[p..q + 1] else "") + Selected(re, s[q + 1..]) == Selected(re, s)
    ensures Tail(s[q + 1..]) == Tail(s)
  {
    hide Selected, Tail, Matches;
    var rest, n := s[p..], q - p;
    assert rest[..n] == s[p..q] && rest[n + 1..] == s[q + 1..] && rest[..n + 1] == s[p..q + 1];
    LineDone(re, rest, n);
    Together(out, if Matches(re, s[p..q]) then s[p..q + 1] else "", Selected(re, s[q + 1..]));
  }

  lemma Together(a: string, b: string, c: string)
    ensures (a + b) + c == a + (b + c)
  {
  }

  lemma NoMoreLines(re: string, s: string, out: string, p: int, q: int)
    requires 0 <= p <= q == |s| && '\n' !in s[p..q] && out + Selected(re, s[p..]) == Selected(re, s)
    ensures out == Selected(re, s) && Tail(s[p..]) == s[p..]
  {
    assert s[p..q] == s[p..];
  }

  /** All prefixes shorter than n leave a line that fits the buffer with its newline to come. */
  ghost predicate LinesFit(input: string, n: int) {
    forall j :: 0 <= j < n && j <= |input| ==> |Tail(input[..j])| < ROOM
  }

  /** read(fd, buf+m, ...): n characters of the input from `at` on. */
  method ReadInto(buf: array<char>, m: int, input: string, at: int, n: int)
    requires 0 <= m && 0 <= n && m + n <= buf.Length && 0 <= at && at + n <= |input|
    modifies buf
    ensures buf[..m + n] == old(buf[..m]) + input[at..at + n]
  {
    for i := 0 to n
      invariant buf[..m] == old(buf[..m]) && buf[m..m + i] == input[at..at + i]
    {
      buf[m + i] := input[at + i];
    }
  }

  /** memmove(buf, p, left). */
  method MoveDown(buf: array<char>, p: int, left: int)
    requires 0 <= p && 0 <= left && p + left <= buf.Length
    modifies buf
    ensures buf[..left] == old(buf[p..p + left])
  {
    for i := 0 to left
      invariant forall k :: 0 <= k < i ==> buf[k] == old(buf[p + k])
      invariant forall k :: p + i <= k < p + left ==> buf[k] == old(buf[k])
    {
      buf[i] := buf[p + i];
    }
  }

  /** grep, on a file that holds `input`; a read may return any part of what fits.  It stops early when a line
      fills the buffer: everything is searched exactly when every line is shorter than the buffer. */
  method GrepFile(re: string, input: string) returns (out: string, ghost pos: int)
    ensures out <= Selected(re, input) && (LinesFit(input, |input|) ==> out == Selected(re, input))
    ensures 0 <= pos <= |input| && out == Selected(re, input[..pos])
    ensures pos == |input| <==> LinesFit(input, |input|)
    ensures pos < |input| ==> |Tail(input[..pos])| == ROOM
  {
    hide Selected, Tail, LinesFit;
    FileStart(re, input);
    var buf := new char[1024];
    var m := 0;
    var at := 0;
    out := "";
    while m < ROOM && at < |input|
      invariant 0 <= m <= ROOM && 0 <= at <= |input|
      invariant out == Selected(re, input[..at]) && buf[..m] == Tail(input[..at]) && LinesFit(input, at)
      decreases |input| - at
    {
      var n: int :| 1 <= n <= ROOM - m && n <= |input| - at;
      ReadMore(re, input, at, n);
      ReadInto(buf, m, input, at, n);
      var more, p := PrintLines(re, buf, m + n);
      out := out + more;
      at := at + n;
      MoveDown(buf, p, m + n - p);
      m := m + n - p;
    }
    pos := at;
    FileEnd(input, at);
    assert input[..at] + input[at..] == input;
    assert at == |input| ==> input[..at] == input;
    SelectedThen(re, input[..at], input[at..]);
  }

  lemma FileStart(re: string, input: string)
    ensures Selected(re, input[..0]) == "" && Tail(input[..0]) == "" && LinesFit(input, 0)
  {
  }

  lemma FileEnd(input: string, at: int)
    requires 0 <= at <= |input| && LinesFit(input, at) && |Tail(input[..at])| <= ROOM && (|Tail(input[..at])| == ROOM || at == |input|)
    ensures at == |input| <==> LinesFit(input, |input|)
  {
    hide Tail;
  }

  lemma ReadMore(re: string, input: string, pos: int, n: int)
    requires 0 <= pos && 1 <= n && pos + n <= |input| && LinesFit(input, pos) && |Tail(input[..pos])| + n <= ROOM
    ensures var b := input[pos..pos + n];
            && Selected(re, input[..pos + n]) == Selected(re, input[..pos]) + Selected(re, Tail(input[..pos]) + b)
            && Tail(input[..pos + n]) == Tail(Tail(input[..pos]) + b)
    ensures LinesFit(input, pos + n)
  {
    hide Selected, Tail;
    var b := input[pos..pos + n];
    assert input[..pos + n] == input[..pos] + b;
    SelectedThen(re, input[..pos], b);
    TailThen(input[..pos], b);
    forall j | pos <= j < pos + n ensures |Tail(input[..j])| < ROOM {
      assert input[..j] == input[..pos] + input[pos..j];
      TailGrows(input[..pos], input[pos..j]);
    }
  }
}
