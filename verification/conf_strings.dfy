// String values in the configuration file: quoting in conf_write and the unquoting
// of conf_read_simple, which works in place on the line buffer.

module ConfStrings {
  import opened Options

  const NUL: char := '\0'
  const QUOTE: char := '\"'
  const BACKSLASH: char := '\\'
  const PREFIX: string := "CONFIG_"

  predicate IsSpecial(c: char) {
    c == QUOTE || c == BACKSLASH
  }

  // Quote and backslash are preceded by a backslash.
  function Escape(s: string): string {
    if s == "" then ""
    else if IsSpecial(s[0]) then [BACKSLASH, s[0]] + Escape(s[1..])
    else [s[0]] + Escape(s[1..])
  }

  // The text up to the first quote that is not escaped, without the escapes; None if
  // there is no such quote.
  function Unquote(s: string): Option<string> {
    if s == "" then None
    else if s[0] == QUOTE then Some("")
    else if s[0] == BACKSLASH then
      if |s| == 1 then None else Prepend([s[1]], Unquote(s[2..]))
    else Prepend([s[0]], Unquote(s[1..]))
  }

  function Prepend(a: string, t: Option<string>): Option<string> {
    if t.Some? then Some(a + t.value) else None
  }

  lemma PrependJoin(a: string, b: string, t: Option<string>)
    ensures Prepend(a, Prepend(b, t)) == Prepend(a + b, t)
    ensures Prepend("", t) == t
  {
    if t.Some? {
      assert a + (b + t.value) == a + b + t.value;
      assert "" + t.value == t.value;
    }
  }

  // Character by character: only quote and backslash change, and get a backslash before them.
  lemma EscapeOne(c: char)
    ensures Escape([c]) == if c == '\"' || c == '\\' then ['\\', c] else [c]
  {
    assert [c][1..] == "";
  }

  lemma EscapeFirst(c: char, s: string)
    ensures Escape([c] + s) == Escape([c]) + Escape(s)
  {
    assert ([c] + s)[0] == c && ([c] + s)[1..] == s && [c][1..] == "";
    assert [BACKSLASH, c] + "" == [BACKSLASH, c] && [c] + "" == [c];
  }

  lemma {:induction false} EscapeJoin(s: string, t: string)
    ensures Escape(s + t) == Escape(s) + Escape(t)
  {
    if s == "" {
      assert s + t == t;
    } else {
      var c, rest := s[0], s[1..];
      assert s == [c] + rest && s + t == [c] + (rest + t);
      EscapeFirst(c, rest);
      EscapeFirst(c, rest + t);
      EscapeJoin(rest, t);
    }
  }

  // What is written is what is read.
  lemma {:induction false} UnquoteEscape(s: string, rest: string)
    ensures Unquote(Escape(s) + [QUOTE] + rest) == Some(s)
  {
    var tail := [QUOTE] + rest;
    assert Escape(s) + [QUOTE] + rest == Escape(s) + tail;
    if s != "" {
      UnquoteEscape(s[1..], rest);
      assert Escape(s[1..]) + [QUOTE] + rest == Escape(s[1..]) + tail;
      var t := Escape(s) + tail;
      if IsSpecial(s[0]) {
        assert t[0] == BACKSLASH && t[1] == s[0];
        assert t[2..] == Escape(s[1..]) + tail;
      } else {
        assert t[0] == s[0];
        assert t[1..] == Escape(s[1..]) + tail;
      }
      assert [s[0]] + s[1..] == s;
    }
  }

  // Nothing else is lost: different strings are written differently.
  lemma EscapeInjective(s: string, t: string)
    requires Escape(s) == Escape(t)
    ensures s == t
  {
    UnquoteEscape(s, "");
    UnquoteEscape(t, "");
  }

  lemma {:induction false} EscapeSplit(s: string, i: nat)
    requires i <= |s| && forall k :: 0 <= k < i ==> !IsSpecial(s[k])
    ensures Escape(s) == s[..i] + Escape(s[i..])
  {
    if i == 0 {
      assert s[0..] == s;
    } else {
      EscapeSplit(s[1..], i - 1);
      assert s[1..][i - 1..] == s[i..];
      assert [s[0]] + s[1..][..i - 1] == s[..i];
    }
  }

  // strcspn(str, "\"\\")
  method SpanPlain(s: string, from: nat) returns (i: nat)
    requires from <= |s|
    ensures from <= i <= |s| && (forall k :: from <= k < i ==> !IsSpecial(s[k]))
    ensures i < |s| ==> IsSpecial(s[i])
  {
    i := from;
    while i < |s| && !IsSpecial(s[i])
      invariant from <= i <= |s| && forall k :: from <= k < i ==> !IsSpecial(s[k])
    {
      i := i + 1;
    }
  }

  lemma EscapePlain(s: string, i: nat, j: nat)
    requires i <= j <= |s| && forall k :: i <= k < j ==> !IsSpecial(s[k])
    ensures Escape(s[i..]) == s[i..j] + Escape(s[j..])
  {
    EscapeSplit(s[i..], j - i);
    assert s[i..][..j - i] == s[i..j] && s[i..][j - i..] == s[j..];
  }

  lemma EscapeSpecial(s: string, j: nat)
    requires j < |s| && IsSpecial(s[j])
    ensures Escape(s[j..]) == [BACKSLASH, s[j]] + Escape(s[j + 1..])
  {
    assert s[j..][0] == s[j] && s[j..][1..] == s[j + 1..];
  }

  lemma Append(out: string, a: string, b: string, rest: string)
    ensures out + (a + (b + rest)) == (out + a + b) + rest
  {
  }

  // The characters before i have been written.
  predicate Written(s: string, out: string, i: nat) {
    i <= |s| && Escape(s) == out + Escape(s[i..])
  }

  lemma WrittenMore(s: string, out: string, i: nat, j: nat)
    requires Written(s, out, i) && i <= j <= |s| && forall k :: i <= k < j ==> !IsSpecial(s[k])
    ensures j == |s| ==> Escape(s) == out + s[i..j]
    ensures j < |s| && IsSpecial(s[j]) ==> Written(s, out + s[i..j] + [BACKSLASH, s[j]], j + 1)
  {
    EscapePlain(s, i, j);
    if j == |s| {
      assert s[j..] == "" && s[i..j] + "" == s[i..j];
    } else if IsSpecial(s[j]) {
      EscapeSpecial(s, j);
      Append(out, s[i..j], [BACKSLASH, s[j]], Escape(s[j + 1..]));
    }
  }

  // The loop of conf_write over a string value
  method WriteValue(str: string) returns (out: string)
    ensures out == Escape(str)
  {
    out := "";
    var i := 0;
    assert str[0..] == str;
    while true
      invariant 0 <= i <= |str| && Written(str, out, i)
      decreases |str| - i
    {
      var j := SpanPlain(str, i);
      WrittenMore(str, out, i, j);
      out := out + str[i..j];
      if j == |str| {
        break;
      }
      out := out + [BACKSLASH, str[j]];
      i := j + 1;
    }
  }

  // The line buffer -----------------------------------------------------------------

  // The C string that starts at position i.
  function CStr(b: seq<char>, i: nat): string
    decreases |b| - i
  {
    if i >= |b| || b[i] == NUL then "" else [b[i]] + CStr(b, i + 1)
  }

  // There is a terminator at or after i.
  predicate Terminated(b: seq<char>, i: nat) {
    i + |CStr(b, i)| < |b|
  }

  lemma {:induction false} CStrShape(b: seq<char>, i: nat)
    requires i <= |b|
    ensures i + |CStr(b, i)| <= |b| && CStr(b, i) == b[i..i + |CStr(b, i)|]
    ensures NUL !in CStr(b, i)
    ensures Terminated(b, i) ==> b[i + |CStr(b, i)|] == NUL
    decreases |b| - i
  {
    if i < |b| && b[i] != NUL {
      CStrShape(b, i + 1);
    }
  }

  // A terminator at the end of text without one
  lemma {:induction false} CStrIs(b: seq<char>, i: nat, text: string)
    requires i + |text| < |b| && b[i..i + |text|] == text && NUL !in text && b[i + |text|] == NUL
    ensures CStr(b, i) == text && Terminated(b, i)
    decreases |text|
  {
    if text != "" {
      assert b[i] == text[0] && text[0] in text;
      assert b[i + 1..i + 1 + |text[1..]|] == text[1..];
      CStrIs(b, i + 1, text[1..]);
    }
  }

  predicate PlainUpTo(s: string, n: nat) {
    n <= |s| && forall k :: 0 <= k < n ==> !IsSpecial(s[k])
  }

  lemma {:induction false} UnquotePlain(s: string, i: nat)
    requires PlainUpTo(s, i)
    ensures Unquote(s) == Prepend(s[..i], Unquote(s[i..]))
  {
    if i == 0 {
      assert s[0..] == s && s[..0] == "";
      PrependJoin("", "", Unquote(s));
    } else {
      UnquotePlain(s[1..], i - 1);
      assert s[1..][i - 1..] == s[i..];
      assert [s[0]] + s[1..][..i - 1] == s[..i];
      PrependJoin([s[0]], s[1..][..i - 1], Unquote(s[i..]));
    }
  }

  // The first quote or backslash of the string at from is at position j.
  predicate SpecialAt(b: seq<char>, from: nat, j: nat) {
    var s := CStr(b, from);
    from <= j < from + |s| && j < |b| && b[j] == s[j - from] && IsSpecial(b[j]) && PlainUpTo(s, j - from)
  }

  // strpbrk(p2, "\"\\")
  method FindSpecial(line: array<char>, from: nat) returns (i: Option<nat>)
    requires from < line.Length && Terminated(line[..], from)
    ensures match i
      case None => PlainUpTo(CStr(line[..], from), |CStr(line[..], from)|)
      case Some(j) => SpecialAt(line[..], from, j)
  {
    ghost var s := CStr(line[..], from);
    CStrShape(line[..], from);
    var j := from;
    while line[j] != NUL
      invariant from <= j <= from + |s|
      invariant PlainUpTo(s, j - from)
      decreases from + |s| - j
    {
      assert line[j] == line[..][j];
      if IsSpecial(line[j]) {
        return Some(j);
      }
      j := j + 1;
    }
    return None;
  }

  // What has been unquoted so far and what is still to be read.
  predicate Progress(text: string, done: string, s: string) {
    && Unquote(text) == Prepend(done, Unquote(s))
    && (NUL !in done || s == "")
  }

  // The text has been unquoted up to p2, and the result is at p.
  predicate Unquoting(b: seq<char>, p: nat, p2: nat, text: string) {
    p <= p2 < |b| && Terminated(b, p2) && Progress(text, b[p..p2], CStr(b, p2))
  }

  lemma NothingFound(b: seq<char>, p: nat, p2: nat, text: string)
    requires Unquoting(b, p, p2, text)
    requires PlainUpTo(CStr(b, p2), |CStr(b, p2)|)
    ensures Unquote(text).None?
  {
    NoSpecialLeft(text, b[p..p2], CStr(b, p2));
  }

  lemma NoSpecialLeft(text: string, done: string, s: string)
    requires Progress(text, done, s) && PlainUpTo(s, |s|)
    ensures Unquote(text).None?
  {
    UnquotePlain(s, |s|);
    assert s[|s|..] == "";
  }

  lemma QuoteReached(text: string, done: string, s: string, n: nat)
    requires Progress(text, done, s) && n < |s| && s[n] == QUOTE && NUL !in s && PlainUpTo(s, n)
    ensures Unquote(text) == Some(done + s[..n]) && NUL !in done + s[..n]
  {
    UnquotePlain(s, n);
    PrependJoin(done, s[..n], Unquote(s[n..]));
    assert done + s[..n] + "" == done + s[..n];
  }

  lemma BackslashReached(text: string, done: string, s: string, n: nat)
    requires Progress(text, done, s) && n < |s| && s[n] == BACKSLASH && NUL !in s && PlainUpTo(s, n)
    ensures n + 1 == |s| ==> Progress(text, done + s[..n] + [NUL], "")
    ensures n + 1 < |s| ==> Progress(text, done + s[..n] + [s[n + 1]], s[n + 2..])
  {
    UnquotePlain(s, n);
    PrependJoin(done, s[..n], Unquote(s[n..]));
    if n + 1 < |s| {
      assert s[n..][2..] == s[n + 2..];
      PrependJoin(done + s[..n], [s[n + 1]], Unquote(s[n + 2..]));
      assert s[n + 1] in s;
    }
  }

  // memmove(p2, p2 + 1, strlen(p2)) at position j
  method DropEscape(line: array<char>, j: nat)
    requires j < line.Length && Terminated(line[..], j) && CStr(line[..], j) != ""
    modifies line
    ensures j + 1 < line.Length && Terminated(line[..], j + 1)
    ensures var rest := old(CStr(line[..], j));
      && CStr(line[..], j + 1) == (if |rest| == 1 then "" else rest[2..])
      && line[..][j] == (if |rest| == 1 then NUL else rest[1])
    ensures line[..][..j] == old(line[..])[..j]
  {
    ghost var before := line[..];
    var n := StrLen(line, j);
    forall k | j <= k < j + n {
      line[k] := line[k + 1];
    }
    assert line[..][..j] == before[..j];
    Shifted(before, line[..], j, CStr(before, j));
  }

  lemma {:induction false} CStrSuffix(b: seq<char>, i: nat, k: nat)
    requires k <= |CStr(b, i)|
    ensures CStr(b, i + k) == CStr(b, i)[k..]
    ensures Terminated(b, i) ==> Terminated(b, i + k)
    decreases k
  {
    if k > 0 {
      CStrSuffix(b, i + 1, k - 1);
    }
  }

  // The string ends at the quote at position j.
  method EndAtQuote(line: array<char>, p: nat, p2: nat, j: nat, ghost text: string)
    requires Unquoting(line[..], p, p2, text) && SpecialAt(line[..], p2, j) && line[..][j] == QUOTE
    modifies line
    ensures Unquote(text) == Some(CStr(line[..], p)) && Terminated(line[..], p)
    ensures line[..][..p] == old(line[..])[..p]
  {
    ghost var before := line[..];
    ghost var s, done := CStr(before, p2), before[p..p2];
    CopiedSoFar(before, p, p2, j, s);
    QuoteReached(text, done, s, j - p2);
    line[j] := NUL;
    assert line[..] == before[j := NUL];
    assert line[..][p..j] == before[p..j];
    CStrIs(line[..], p, done + s[..j - p2]);
  }

  // The backslash at position j is dropped and the character behind it kept.
  method SkipEscape(line: array<char>, p: nat, p2: nat, j: nat, ghost text: string)
    requires Unquoting(line[..], p, p2, text) && SpecialAt(line[..], p2, j) && line[..][j] == BACKSLASH
    modifies line
    ensures Unquoting(line[..], p, j + 1, text)
    ensures line[..][..p] == old(line[..])[..p]
  {
    ghost var before := line[..];
    ghost var s, done := CStr(before, p2), before[p..p2];
    CopiedSoFar(before, p, p2, j, s);
    DropEscape(line, j);
    Skipped(before, line[..], p, p2, j, text, done, s, CStr(line[..], j + 1));
  }

  lemma Skipped(b: seq<char>, c: seq<char>, p: nat, p2: nat, j: nat, text: string, done: string, s: string,
                rest: string)
    requires p <= p2 <= j < p2 + |s| && j < |b| == |c| && c[..j] == b[..j]
    requires b[p..p2] == done && b[p..j] == done + s[..j - p2]
    requires Progress(text, done, s) && s[j - p2] == BACKSLASH && NUL !in s && PlainUpTo(s, j - p2)
    requires rest == if |s[j - p2..]| == 1 then "" else s[j - p2..][2..]
    requires c[j] == if |s[j - p2..]| == 1 then NUL else s[j - p2..][1]
    ensures Progress(text, c[p..j + 1], rest) && c[..p] == b[..p]
  {
    FrontIs(b, c, p, p2, j, s);
    AfterEscape(text, done, s, j - p2, c[j], rest);
  }

  lemma FrontIs(b: seq<char>, c: seq<char>, p: nat, p2: nat, j: nat, s: string)
    requires p <= p2 <= j <= p2 + |s| && j < |b| == |c| && c[..j] == b[..j]
    requires b[p..j] == b[p..p2] + s[..j - p2]
    ensures c[..p] == b[..p] && c[p..j + 1] == b[p..p2] + s[..j - p2] + [c[j]]
  {
    KeepFront(b, c, p, j);
  }

  lemma CopiedSoFar(b: seq<char>, p: nat, p2: nat, j: nat, s: string)
    requires p <= p2 <= j <= p2 + |s| && p2 <= |b| && s == CStr(b, p2)
    ensures p2 + |s| <= |b| && NUL !in s && b[p..j] == b[p..p2] + s[..j - p2]
    ensures CStr(b, j) == s[j - p2..]
  {
    CStrShape(b, p2);
    CStrSuffix(b, p2, j - p2);
  }

  lemma KeepFront(b: seq<char>, c: seq<char>, p: nat, j: nat)
    requires p <= j < |b| == |c| && c[..j] == b[..j]
    ensures c[..p] == b[..p] && c[p..j + 1] == b[p..j] + [c[j]]
  {
    assert c[..p] == c[..j][..p] && b[..p] == b[..j][..p];
    assert c[p..j] == c[..j][p..] && b[p..j] == b[..j][p..];
  }

  lemma AfterEscape(text: string, done: string, s: string, n: nat, c: char, rest: string)
    requires Progress(text, done, s) && n < |s| && s[n] == BACKSLASH && NUL !in s && PlainUpTo(s, n)
    requires rest == if |s[n..]| == 1 then "" else s[n..][2..]
    requires c == if |s[n..]| == 1 then NUL else s[n..][1]
    ensures Progress(text, done + s[..n] + [c], rest)
  {
    BackslashReached(text, done, s, n);
    if n + 1 < |s| {
      assert s[n..][2..] == s[n + 2..];
    }
  }

  // The loop that drops the escapes and ends the string at the closing quote.
  method UnquoteInPlace(line: array<char>, p: nat) returns (ok: bool)
    requires p < line.Length && Terminated(line[..], p)
    modifies line
    ensures ok <==> Unquote(old(CStr(line[..], p))).Some?
    ensures ok ==> CStr(line[..], p) == Unquote(old(CStr(line[..], p))).value && Terminated(line[..], p)
    ensures line[..][..p] == old(line[..])[..p]
  {
    var p2 := p;
    ghost var text := CStr(line[..], p);
    assert line[..][p..p2] == "";
    PrependJoin("", "", Unquote(text));
    while true
      invariant p <= p2 < line.Length && Unquoting(line[..], p, p2, text)
      invariant line[..][..p] == old(line[..])[..p]
      decreases line.Length - p2
    {
      var found := FindSpecial(line, p2);
      if found.None? {
        NothingFound(line[..], p, p2, text);
        return false;
      }
      if line[found.value] == QUOTE {
        EndAtQuote(line, p, p2, found.value, text);
        return true;
      }
      SkipEscape(line, p, p2, found.value, text);
      p2 := found.value + 1;
    }
  }

  method StrLen(line: array<char>, from: nat) returns (n: nat)
    requires from < line.Length && Terminated(line[..], from)
    ensures n == |CStr(line[..], from)| && from + n < line.Length
  {
    CStrShape(line[..], from);
    n := 0;
    while line[from + n] != NUL
      invariant 0 <= n <= |CStr(line[..], from)|
      decreases |CStr(line[..], from)| - n
    {
      assert line[from + n] == line[..][from + n];
      n := n + 1;
    }
  }

  lemma Shifted(b: seq<char>, c: seq<char>, j: nat, rest: string)
    requires j < |b| == |c| && rest == CStr(b, j) != "" && Terminated(b, j)
    requires c[..j] == b[..j]
    requires forall k :: j <= k < j + |rest| ==> c[k] == b[k + 1]
    requires c[j + |rest|] == b[j + |rest|]
    ensures j + 1 < |c| && Terminated(c, j + 1)
    ensures CStr(c, j + 1) == if |rest| == 1 then "" else rest[2..]
    ensures c[j] == if |rest| == 1 then NUL else rest[1]
  {
    CStrShape(b, j);
    var n := |rest|;
    assert b[j + n] == NUL;
    if n > 1 {
      var tail := rest[2..];
      assert forall k :: 0 <= k < |tail| ==> tail[k] in rest;
      assert c[j + 1..j + 1 + |tail|] == tail;
      assert c[j + 1 + |tail|] == b[j + n];
      CStrIs(c, j + 1, tail);
    } else {
      CStrIs(c, j + 1, "");
    }
  }

  // Whole lines ---------------------------------------------------------------------

  const BUFFER: nat := 1024
  const NEWLINE: char := '\n'
  const RETURN: char := '\r'

  // The line conf_write prints for a string symbol
  function Line(name: string, value: string): string {
    PREFIX + name + ['=', QUOTE] + Escape(value) + [QUOTE, NEWLINE]
  }

  // The position of the first c
  function IndexOf(s: string, c: char): (i: Option<nat>)
    ensures match i { case None => c !in s case Some(j) => j < |s| && s[j] == c && c !in s[..j] }
  {
    if s == "" then None
    else if s[0] == c then Some(0)
    else
      var i := IndexOf(s[1..], c);
      if i.None? then None
      else
        assert s[..i.value + 1] == [s[0]] + s[1..][..i.value];
        Some(i.value + 1)
  }

  // fgets: no more than the buffer holds, and no more than one line
  function Chunk(text: string): string {
    var n := match IndexOf(text, NEWLINE) case None => |text| case Some(i) => i + 1;
    text[..if n < BUFFER then n else BUFFER - 1]
  }

  // The value of a line without its end
  function CutEnd(u: string): string {
    match IndexOf(u, NEWLINE)
    case None => u
    case Some(i) => if i > 0 && u[i - 1] == RETURN then u[..i - 1] else u[..i]
  }

  // What conf_read_simple makes of a line for a string symbol
  function ReadLineSpec(s: string): Option<(string, string)> {
    if !(PREFIX <= s) then None
    else
      var t := s[|PREFIX|..];
      match IndexOf(t, '=')
      case None => None
      case Some(i) =>
        var v := CutEnd(t[i + 1..]);
        if v == "" || v[0] != QUOTE then None
        else match Unquote(v[1..])
          case None => None
          case Some(value) => Some((t[..i], value))
  }

  // A name of a symbol and a value that one line can hold
  predicate Plain(name: string, value: string) {
    && '=' !in name && NEWLINE !in name && NUL !in name
    && NEWLINE !in value && NUL !in value
  }

  lemma {:induction false} EscapeLacks(s: string, c: char)
    requires c !in s && !IsSpecial(c)
    ensures c !in Escape(s)
  {
    if s != "" {
      EscapeLacks(s[1..], c);
    }
  }

  // Without its closing quote a value is not accepted.
  lemma {:induction false} TruncatedUnquote(s: string, k: nat)
    requires k <= |Escape(s)|
    ensures Unquote(Escape(s)[..k]).None?
  {
    if s != "" && k > 0 {
      var e := Escape(s);
      if IsSpecial(s[0]) {
        if k >= 2 {
          assert e[..k][0] == BACKSLASH && e[..k][2..] == Escape(s[1..])[..k - 2];
          TruncatedUnquote(s[1..], k - 2);
        }
      } else {
        assert e[..k][1..] == Escape(s[1..])[..k - 1];
        TruncatedUnquote(s[1..], k - 1);
      }
    }
  }

  lemma IndexOfFirst(a: string, c: char, b: string)
    requires c !in a
    ensures IndexOf(a + [c] + b, c) == Some(|a|)
  {
    var s := a + [c] + b;
    assert s[|a|] == c;
    assert forall k :: 0 <= k < |a| ==> s[k] == a[k] && s[k] in a;
  }

  // Both kinds of line ends are cut off, with whatever follows them.
  lemma CutEndIs(a: string, rest: string)
    requires '\n' !in a && (a == "" || a[|a| - 1] != '\r')
    ensures CutEnd(a) == a && CutEnd(a + "\n" + rest) == a && CutEnd(a + "\r\n" + rest) == a
  {
    IndexOfFirst(a, '\n', rest);
    IndexOfFirst(a + "\r", '\n', rest);
    assert a + "\n" + rest == a + ['\n'] + rest;
    assert a + "\r\n" + rest == a + "\r" + ['\n'] + rest;
    assert (a + "\r\n" + rest)[..|a|] == a && (a + "\n" + rest)[..|a|] == a;
  }

  // A line that begins with the prefix, a name and a quoted value
  lemma ReadParts(name: string, u: string)
    requires '=' !in name
    ensures ReadLineSpec(PREFIX + (name + ['='] + u)) ==
      var v := CutEnd(u);
      if v == "" || v[0] != QUOTE || Unquote(v[1..]).None? then None
      else Some((name, Unquote(v[1..]).value))
  {
    var t := name + ['='] + u;
    var s := PREFIX + t;
    assert s[..|PREFIX|] == PREFIX && s[|PREFIX|..] == t;
    IndexOfFirst(name, '=', u);
    assert t[..|name|] == name && t[|name| + 1..] == u;
  }

  // A line that the buffer holds, with or without its newline
  lemma ReadWholeLine(name: string, value: string, end: string)
    requires Plain(name, value) && (end == "" || end == [NEWLINE])
    ensures ReadLineSpec(PREFIX + name + ['=', QUOTE] + Escape(value) + [QUOTE] + end) == Some((name, value))
  {
    var body := [QUOTE] + Escape(value) + [QUOTE];
    Regroup(PREFIX + name, Escape(value), end);
    assert PREFIX + name + (['='] + (body + end)) == PREFIX + (name + ['='] + (body + end));
    ReadParts(name, body + end);
    EscapeLacks(value, NEWLINE);
    CutBody(body, end);
    UnquoteBody(value);
  }

  lemma Regroup(front: string, escaped: string, end: string)
    ensures front + ['=', QUOTE] + escaped + [QUOTE] + end
         == front + (['='] + ([QUOTE] + escaped + [QUOTE] + end))
  {
  }

  lemma UnquoteBody(value: string)
    ensures Unquote(([QUOTE] + Escape(value) + [QUOTE])[1..]) == Some(value)
  {
    assert ([QUOTE] + Escape(value) + [QUOTE])[1..] == Escape(value) + [QUOTE] + "";
    UnquoteEscape(value, "");
  }

  lemma CutBody(body: string, end: string)
    requires body != "" && NEWLINE !in body && body[|body| - 1] == QUOTE && (end == "" || end == [NEWLINE])
    ensures CutEnd(body + end) == body
  {
    if end == "" {
      assert body + end == body;
    } else {
      IndexOfFirst(body, NEWLINE, "");
      assert body + end == body + [NEWLINE] + "";
    }
  }

  // A line cut off before its closing quote
  lemma ReadTruncatedLine(name: string, value: string, n: nat)
    requires Plain(name, value) && n <= |PREFIX + name + ['=', QUOTE] + Escape(value)|
    ensures ReadLineSpec((PREFIX + name + ['=', QUOTE] + Escape(value))[..n]).None?
  {
    var open := PREFIX + name + ['=', QUOTE] + Escape(value);
    var m := |PREFIX + name| + 1;
    if n < m {
      assert open[..n] == (PREFIX + name)[..n];
      NoNameEnd(name, n);
    } else {
      var q := [QUOTE] + Escape(value);
      CutInValue(PREFIX, name, Escape(value), q, n);
      ReadParts(name, q[..n - m]);
      CutShort(value, n - m);
    }
  }

  lemma CutInValue(prefix: string, name: string, escaped: string, q: string, n: nat)
    requires q == [QUOTE] + escaped && |prefix + name| + 1 <= n <= |prefix + name| + 1 + |q|
    ensures (prefix + name + ['=', QUOTE] + escaped)[..n] == prefix + (name + ['='] + q[..n - |prefix + name| - 1])
  {
    assert prefix + name + ['=', QUOTE] + escaped == prefix + name + ['='] + q;
  }

  lemma CutShort(value: string, k: nat)
    requires NEWLINE !in value && k <= |[QUOTE] + Escape(value)|
    ensures var v := CutEnd(([QUOTE] + Escape(value))[..k]);
      v == "" || v[0] != QUOTE || Unquote(v[1..]).None?
  {
    var u := ([QUOTE] + Escape(value))[..k];
    EscapeLacks(value, NEWLINE);
    assert NEWLINE !in [QUOTE] + Escape(value);
    assert CutEnd(u) == u;
    if u != "" {
      assert u[1..] == Escape(value)[..k - 1];
      TruncatedUnquote(value, k - 1);
    }
  }

  lemma NoNameEnd(name: string, n: nat)
    requires '=' !in name && n <= |PREFIX + name|
    ensures ReadLineSpec((PREFIX + name)[..n]).None?
  {
    var s := (PREFIX + name)[..n];
    if PREFIX <= s {
      var t := s[|PREFIX|..];
      assert t == name[..|t|];
      assert '=' !in t;
    }
  }

  // A string value comes back exactly when its line, without the newline, fits the
  // buffer together with the terminator.
  lemma RoundTripIff(name: string, value: string)
    requires Plain(name, value)
    ensures ReadLineSpec(Chunk(Line(name, value))) == Some((name, value)) <==> |Line(name, value)| <= BUFFER
  {
    var open := PREFIX + name + ['=', QUOTE] + Escape(value);
    var line := Line(name, value);
    EscapeLacks(value, NEWLINE);
    assert NEWLINE !in open + [QUOTE] by { assert NEWLINE !in PREFIX; }
    assert line == open + [QUOTE] + [NEWLINE] + "";
    IndexOfFirst(open + [QUOTE], NEWLINE, "");
    if |line| < BUFFER {
      assert Chunk(line) == open + [QUOTE] + [NEWLINE];
      ReadWholeLine(name, value, [NEWLINE]);
    } else if |line| == BUFFER {
      assert Chunk(line) == open + [QUOTE] + "";
      ReadWholeLine(name, value, "");
    } else {
      assert Chunk(line) == open[..BUFFER - 1];
      ReadTruncatedLine(name, value, BUFFER - 1);
    }
  }

  // conf_read_simple on the line buffer --------------------------------------------

  // strchr from a position on
  method Find(line: array<char>, from: nat, c: char) returns (i: Option<nat>)
    requires from < line.Length && Terminated(line[..], from) && c != NUL
    ensures i == IndexOf(CStr(line[..], from), c)
  {
    ghost var s := CStr(line[..], from);
    CStrShape(line[..], from);
    var j := 0;
    while line[from + j] != NUL
      invariant 0 <= j <= |s| && forall k :: 0 <= k < j ==> s[k] != c
      decreases |s| - j
    {
      assert line[from + j] == line[..][from + j];
      if line[from + j] == c {
        FoundFirst(s, j, c);
        return Some(j);
      }
      j := j + 1;
    }
    return None;
  }

  lemma FoundFirst(s: string, j: nat, c: char)
    requires j < |s| && s[j] == c && forall k :: 0 <= k < j ==> s[k] != c
    ensures IndexOf(s, c) == Some(j)
  {
    IndexOfFirst(s[..j], c, s[j + 1..]);
    assert s == s[..j] + [c] + s[j + 1..];
  }

  // The text at a position as a value: strdup
  method Copy(line: array<char>, from: nat) returns (s: string)
    requires from < line.Length && Terminated(line[..], from)
    ensures s == CStr(line[..], from)
  {
    var n := StrLen(line, from);
    CStrShape(line[..], from);
    assert line[..][from..from + n] == line[from..from + n];
    s := line[from..from + n];
  }

  // A terminator written at the k-th character of the string at i
  method Cut(line: array<char>, i: nat, k: nat)
    requires i + k < line.Length && Terminated(line[..], i) && k <= |CStr(line[..], i)|
    modifies line
    ensures line[..] == old(line[..])[i + k := NUL]
    ensures CStr(line[..], i) == old(CStr(line[..], i))[..k] && Terminated(line[..], i)
  {
    ghost var before := line[..];
    line[i + k] := NUL;
    CutCStr(before, i, k);
  }

  lemma CutCStr(b: seq<char>, i: nat, k: nat)
    requires i + k < |b| && k <= |CStr(b, i)|
    ensures var c := b[i + k := NUL]; CStr(c, i) == CStr(b, i)[..k] && Terminated(c, i)
  {
    CStrShape(b, i);
    var c, t := b[i + k := NUL], CStr(b, i)[..k];
    assert c[i..i + k] == t;
    assert forall x :: x in t ==> x in CStr(b, i);
    CStrIs(c, i, t);
  }

  // What lies before the position of a string does not matter to it.
  lemma {:induction false} SameTail(b: seq<char>, c: seq<char>, i: nat)
    requires |b| == |c| && (forall k :: i <= k < |b| ==> b[k] == c[k])
    ensures CStr(b, i) == CStr(c, i)
    decreases |b| - i
  {
    if i < |b| {
      SameTail(b, c, i + 1);
    }
  }

  lemma HasPrefix(b: seq<char>)
    ensures PREFIX <= CStr(b, 0) <==> |b| >= |PREFIX| && b[..|PREFIX|] == PREFIX
  {
    CStrShape(b, 0);
    var n := |PREFIX|;
    if |b| >= n && b[..n] == PREFIX {
      PrefixStays(b, 0);
    }
  }

  lemma BehindFront(b: seq<char>, i: nat, s: string, front: string)
    requires Terminated(b, i) && s == CStr(b, i) && front <= s
    ensures var j := i + |front|;
      j < |b| && Terminated(b, j) && s == front + CStr(b, j)
  {
    CStrSuffix(b, i, |front|);
    SplitAt(s, front, CStr(b, i + |front|));
  }

  lemma SplitAt(s: string, front: string, rest: string)
    requires front <= s && rest == s[|front|..]
    ensures s == front + rest
  {
    assert s == s[..|front|] + s[|front|..];
  }

  lemma {:induction false} PrefixStays(b: seq<char>, i: nat)
    requires |b| >= |PREFIX| && b[..|PREFIX|] == PREFIX && i <= |PREFIX|
    ensures |CStr(b, i)| >= |PREFIX| - i
    decreases |PREFIX| - i
  {
    if i < |PREFIX| {
      assert b[i] == b[..|PREFIX|][i] == PREFIX[i];
      assert PREFIX[i] != NUL;
      PrefixStays(b, i + 1);
    }
  }

  // The end of the line is cut off in the buffer.
  method CutLineEnd(line: array<char>, p: nat)
    requires 0 < p < line.Length && Terminated(line[..], p) && line[p - 1] == NUL
    modifies line
    ensures CStr(line[..], p) == CutEnd(old(CStr(line[..], p))) && Terminated(line[..], p)
    ensures line[..p] == old(line[..p])
  {
    ghost var u := CStr(line[..], p);
    CStrShape(line[..], p);
    var end := Find(line, p, NEWLINE);
    if end.Some? {
      Cut(line, p, end.value);
      assert end.value > 0 ==> line[p + end.value - 1] == line[..][p..][end.value - 1] == u[end.value - 1];
      if line[p + end.value - 1] == RETURN {
        Cut(line, p, end.value - 1);
        assert u[..end.value][..end.value - 1] == u[..end.value - 1];
      }
    }
  }

  // A line of a string symbol: the name, and the value unquoted in place
  method ReadLine(line: array<char>) returns (r: Option<(string, string)>)
    requires 0 < line.Length && Terminated(line[..], 0)
    modifies line
    ensures r == ReadLineSpec(old(CStr(line[..], 0)))
  {
    ghost var s := CStr(line[..], 0);
    HasPrefix(line[..]);
    if line.Length < |PREFIX| || line[..|PREFIX|] != PREFIX {
      return None;
    }
    BehindFront(line[..], 0, s, PREFIX);
    r := ReadAssignment(line);
  }

  method ReadAssignment(line: array<char>) returns (r: Option<(string, string)>)
    requires |PREFIX| < line.Length && Terminated(line[..], |PREFIX|)
    modifies line
    ensures r == ReadLineSpec(PREFIX + old(CStr(line[..], |PREFIX|)))
  {
    ghost var t := CStr(line[..], |PREFIX|);
    assert (PREFIX + t)[|PREFIX|..] == t;
    var eq := Find(line, |PREFIX|, '=');
    if eq.None? {
      return None;
    }
    CStrShape(line[..], |PREFIX|);
    CStrSuffix(line[..], |PREFIX|, eq.value + 1);
    ghost var before := line[..];
    Cut(line, |PREFIX|, eq.value);
    var p := |PREFIX| + eq.value + 1;
    SameTail(before, line[..], p);
    var name := Copy(line, |PREFIX|);
    CutLineEnd(line, p);
    CStrShape(line[..], p);
    if line[p] != QUOTE {
      return None;
    }
    CStrSuffix(line[..], p, 1);
    var ok := UnquoteInPlace(line, p + 1);
    if !ok {
      return None;
    }
    var value := Copy(line, p + 1);
    return Some((name, value));
  }
}
