/** The launcher's quoting, joining and splitting, on buffers. */
module LauncherBuffers {
  import opened Locks
  import opened Launcher
  import opened LauncherRoundTrip

  /** What the first loop of protect counts: quotes, and twice the backslashes before each. */
  function Quotes(s: string, w: nat): nat {
    if s == "" then 0
    else if s[0] == '"' then 1 + 2 * w + Quotes(s[1..], 0)
    else if s[0] == '\\' then Quotes(s[1..], w + 1)
    else Quotes(s[1..], 0)
  }

  lemma {:induction false} BodyFits(s: string, w: nat)
    ensures |Body(s, w)| <= |s| + 3 * Quotes(s, w)
  {
    if s != "" {
      BodyFits(s[1..], if s[0] == '\\' then w + 1 else 0);
      SlashesAre(w);
    }
  }

  /** The first loop of protect. */
  method CountQuotes(s: string) returns (hasSpace: bool, hasQuote: nat)
    ensures hasQuote == Quotes(s, 0)
    ensures hasSpace || hasQuote > 0 <==> NeedsQuotes(s)
  {
    hasSpace, hasQuote := false, 0;
    var wasSlash := 0;
    for i := 0 to |s|
      invariant hasQuote + Quotes(s[i..], wasSlash) == Quotes(s, 0)
      invariant hasSpace || hasQuote > 0 <==> exists j :: 0 <= j < i && (IsSpace(s[j]) || s[j] == '\'' || s[j] == '"')
    {
      assert s[i..][1..] == s[i + 1..];
      if IsSpace(s[i]) || s[i] == '\'' {
        hasSpace, wasSlash := true, 0;
      } else if s[i] == '"' {
        hasQuote := hasQuote + 1 + 2 * wasSlash;
        wasSlash := 0;
      } else if s[i] == '\\' {
        wasSlash := wasSlash + 1;
      } else {
        wasSlash := 0;
      }
    }
    assert s[|s|..] == "";
    assert forall j :: 0 <= j < |s| ==> s[j] in s;
    if c :| c in s && (IsSpace(c) || c == '\'' || c == '"') {
      var j :| 0 <= j < |s| && s[j] == c;
    }
  }

  /** protect.  The buffer allocated is large enough for what is written into it. */
  method Protect(s: string) returns (r: string)
    ensures r == Protected(s)
  {
    var hasSpace, hasQuote := CountQuotes(s);
    if !(hasSpace || hasQuote > 0) {
      return s;
    }
    BodyFits(s, 0);
    var naya := new char[|s| + 3 + 3 * hasQuote];
    naya[0] := '"';
    assert naya[..1] == "\"";
    var p := WriteBody(naya, s);
    naya[p] := '"';
    p := p + 1;
    naya[p] := '\0';
    return naya[..p];
  }

  /** The second loop of protect. */
  method WriteBody(naya: array<char>, s: string) returns (p: nat)
    requires |Body(s, 0)| + 3 <= naya.Length
    modifies naya
    ensures p == 1 + |Body(s, 0)| && naya[..p] == old(naya[..1]) + Body(s, 0)
  {
    var wroteSlash := 0;
    p := 1;
    ghost var done := "";
    assert s[0..] == s;
    for i := 0 to |s|
      invariant p == 1 + |done| <= 1 + |Body(s, 0)| && naya[..p] == old(naya[..1]) + done
      invariant done + Body(s[i..], wroteSlash) == Body(s, 0)
    {
      ghost var more, rest := Written(s[i], wroteSlash), Body(s[i + 1..], if s[i] == '\\' then wroteSlash + 1 else 0);
      BodyStep(s[i..], s[i + 1..], wroteSlash);
      Regroup(done, more, rest);
      assert |done + more| + |rest| == |Body(s, 0)|;
      if s[i] == '"' {
        SlashesAre(wroteSlash);
        p := WriteQuote(naya, p, wroteSlash);
        wroteSlash := 0;
      } else {
        p := WriteChar(naya, p, s[i]);
        wroteSlash := if s[i] == '\\' then wroteSlash + 1 else 0;
      }
      Regroup(old(naya[..1]), done, more);
      done := done + more;
    }
    assert s[|s|..] == "" && done + "" == done;
  }

  /** What is written for one character. */
  function Written(c: char, w: nat): string { if c == '"' then Slashes(w) + "\"\\\"\"" else [c] }

  lemma BodyStep(s: string, t: string, w: nat)
    requires s != "" && t == s[1..]
    ensures Body(s, w) == Written(s[0], w) + Body(t, if s[0] == '\\' then w + 1 else 0)
  {
  }

  method WriteChar(naya: array<char>, p: nat, c: char) returns (p': nat)
    requires p < naya.Length
    modifies naya
    ensures p' == p + 1 && naya[..p'] == old(naya[..p]) + [c]
  {
    naya[p] := c;
    p' := p + 1;
  }

  /** Double the backslashes written and put a quote. */
  method WriteQuote(naya: array<char>, p: nat, wroteSlash: nat) returns (p': nat)
    requires p + wroteSlash + 4 <= naya.Length
    modifies naya
    ensures p' == p + wroteSlash + 4 && naya[..p'] == old(naya[..p]) + (Slashes(wroteSlash) + "\"\\\"\"")
  {
    p' := p;
    SlashesAre(wroteSlash);
    for k := 0 to wroteSlash
      invariant p' == p + k && naya[..p] == old(naya[..p])
      invariant forall j :: p <= j < p' ==> naya[j] == '\\'
    {
      naya[p'] := '\\';
      p' := p' + 1;
    }
    naya[p'], naya[p' + 1], naya[p' + 2], naya[p' + 3] := '"', '\\', '"', '"';
    p' := p' + 4;
  }

  function Size(args: seq<string>): nat { if args == [] then 0 else |args[0]| + 1 + Size(args[1..]) }

  /** The size computed leaves room for the null character exactly if there is an argument. */
  lemma LineFits(args: seq<string>)
    ensures |JoinOnto("", args)| < Size(args) <==> args != []
  {
    if args != [] {
      JoinFits("" + args[0], args[1..]);
      assert "" + args[0] == args[0];
    }
  }

  lemma {:induction false} JoinFits(line: string, args: seq<string>)
    ensures |JoinOnto(line, args)| <= |line| + Size(args)
    decreases |args|
  {
    if args != [] {
      JoinFits((if line == "" then "" else line + " ") + args[0], args[1..]);
    }
  }

  /** make_command_line.  The null character at the end is written past the buffer exactly
      if there is no argument. */
  method MakeCommandLine(args: seq<string>) returns (r: string, overran: bool)
    ensures r == JoinOnto("", args)
    ensures overran <==> args == []
  {
    var len := 0;
    for i := 0 to |args|
      invariant len + Size(args[i..]) == Size(args)
    {
      assert args[i..][1..] == args[i + 1..];
      len := len + |args[i]| + 1;
    }
    var buf := new char[len];
    len := FillLine(buf, args);
    LineFits(args);
    overran := len == buf.Length;
    if !overran {
      buf[len] := '\0';
    }
    return buf[..len], overran;
  }

  /** The second loop of make_command_line. */
  method FillLine(buf: array<char>, args: seq<string>) returns (len: nat)
    requires buf.Length == Size(args)
    modifies buf
    ensures len <= buf.Length && buf[..len] == JoinOnto("", args)
  {
    len := 0;
    for i := 0 to |args|
      invariant len + Size(args[i..]) + (if i > 0 then 1 else 0) <= buf.Length
      invariant JoinOnto(buf[..len], args[i..]) == JoinOnto("", args)
    {
      assert args[i..][1..] == args[i + 1..];
      ghost var line := buf[..len];
      if len > 0 {
        buf[len] := ' ';
        len := len + 1;
        assert buf[..len] == line + " ";
      }
      Copy(buf, len, args[i]);
      len := len + |args[i]|;
      assert buf[..len] == (if line == "" then "" else line + " ") + args[i];
    }
  }

  /** memcpy */
  method Copy(buf: array<char>, at: nat, s: string)
    requires at + |s| <= buf.Length
    modifies buf
    ensures buf[..at + |s|] == old(buf[..at]) + s
  {
    for k := 0 to |s|
      invariant buf[..at + k] == old(buf[..at]) + s[..k]
    {
      buf[at + k] := s[k];
    }
  }

  // Splitting in place

  /** At each of these places in the buffer a C string starts. */
  ghost predicate StringsAt(b: string, starts: seq<nat>, args: seq<string>, end: nat) {
    && |starts| == |args| && end <= |b|
    && forall k :: 0 <= k < |starts| ==> StringAt(b, starts[k], args[k], end)
  }

  ghost predicate StringAt(b: string, at: nat, arg: string, end: nat) {
    at + |arg| < end <= |b| && b[at..at + |arg|] == arg && b[at + |arg|] == '\0'
  }

  /** The unread part of the buffer, up to its null character, is still there. */
  ghost predicate Unread(b: string, s: string, parse: nat) {
    parse <= |s| < |b| && b[parse..|s|] == s[parse..] && b[|s|] == '\0'
  }

  lemma UnreadAt(b: string, s: string, parse: nat)
    requires Unread(b, s, parse) && IsCString(s)
    ensures b[parse] == '\0' <==> parse == |s|
    ensures parse < |s| ==> b[parse] == s[parse] && Unread(b, s, parse + 1)
  {
    if parse < |s| {
      assert b[parse] == b[parse..|s|][0] == s[parse] && s[parse] in s;
      assert b[parse + 1..|s|] == b[parse..|s|][1..];
    }
  }

  /** Writing before the unread part leaves it alone. */
  lemma UnreadKept(b: string, b': string, s: string, parse: nat)
    requires Unread(b, s, parse) && |b'| == |b| && forall j :: parse <= j < |b| ==> b'[j] == b[j]
    ensures Unread(b', s, parse)
  {
    assert b'[parse..|s|] == b[parse..|s|];
  }

  /** The first place from parse on that holds no backslash. */
  method PastSlashes(buf: array<char>, parse: nat, ghost s: string) returns (next: nat)
    requires Unread(buf[..], s, parse) && IsCString(s)
    ensures next == parse + Run(s[parse..]) <= |s|
    ensures buf[next] == '"' <==> next < |s| && s[next] == '"'
  {
    next := parse;
    ghost var b := buf[..];
    UnreadAt(b, s, parse);
    while buf[next] == '\\'
      invariant b == buf[..] && parse <= next <= |s| && Unread(b, s, next)
      invariant parse + Run(s[parse..]) == next + Run(s[next..])
      invariant buf[next] == '\0' <==> next == |s|
      invariant next < |s| ==> buf[next] == s[next]
      decreases |s| - next
    {
      UnreadAt(b, s, next);
      UnreadAt(b, s, next + 1);
      assert s[next..][1..] == s[next + 1..];
      next := next + 1;
    }
  }

  /** Write n characters c. */
  method Fill(buf: array<char>, write: nat, n: nat, c: char)
    requires write + n <= buf.Length
    modifies buf
    ensures forall j :: 0 <= j < buf.Length ==> buf[j] == if write <= j < write + n then c else old(buf[j])
  {
    for k := 0 to n
      invariant forall j :: 0 <= j < buf.Length ==> buf[j] == if write <= j < write + k then c else old(buf[j])
    {
      buf[write + k] := c;
    }
  }

  /** A run of k backslashes and the quote behind them. */
  method ReadRun(buf: array<char>, parse: nat, write: nat, k: nat, ghost s: string) returns (parse': nat, write': nat)
    requires Unread(buf[..], s, parse) && write <= parse && k == Run(s[parse..]) > 0 && parse + k < |s|
    requires s[parse + k] == '"'
    modifies buf
    ensures parse' == (if k % 2 == 0 then parse + k else parse + k + 1) && write' == write + |Escaped(k)| <= parse'
    ensures forall j :: 0 <= j < buf.Length && !(write <= j < write') ==> buf[j] == old(buf[j])
    ensures buf[write..write'] == Escaped(k)
  {
    Fill(buf, write, k / 2, '\\');
    write' := write + k / 2;
    parse' := parse + (k - 1);
    if k % 2 == 1 {
      buf[write'] := '"';
      write' := write' + 1;
      parse' := parse' + 1;
    }
    parse' := parse' + 1;
    EscapedWritten(buf[..], write, k, write');
  }

  lemma EscapedWritten(b: string, write: nat, k: nat, end: nat)
    requires end == write + k / 2 + k % 2 <= |b|
    requires forall j :: write <= j < write + k / 2 ==> b[j] == '\\'
    requires k % 2 == 1 ==> b[end - 1] == '"'
    ensures b[write..end] == Escaped(k)
  {
    SlashesAre(k / 2);
    assert b[write..write + k / 2] == Slashes(k / 2);
    assert k % 2 == 1 ==> b[write..end] == b[write..write + k / 2] + ['"'];
  }

  /** Reading from parse on gives what reading from parse' on gives, after `more`. */
  ghost predicate Advances(s: string, parse: nat, quoted: bool, more: string, parse': nat, quoted': bool) {
    forall k: nat :: Open(k) ==>
      parse <= |s| && parse' <= |s| && Scan(s[parse..], quoted) == Prefix(more, Scan(s[parse'..], quoted'))
  }

  lemma AdvancesFurther(s: string, a: nat, qa: bool, x: string, b: nat, qb: bool, y: string, c: nat, qc: bool,
      xy: string)
    requires Advances(s, a, qa, x, b, qb) && Advances(s, b, qb, y, c, qc) && xy == x + y
    ensures Advances(s, a, qa, xy, c, qc)
  {
    assert Open(0);
    PrefixPrefix(x, y, Scan(s[c..], qc), xy);
  }

  /** One round of the loop that reads an argument. */
  method ReadStep(buf: array<char>, parse: nat, write: nat, findquote: bool, ghost s: string)
    returns (parse': nat, write': nat, findquote': bool)
    requires IsCString(s) && Unread(buf[..], s, parse) && write <= parse < |s| && (findquote || !IsSpace(s[parse]))
    modifies buf
    ensures parse < parse' <= |s| && write <= write' <= parse' && Unread(buf[..], s, parse')
    ensures buf[..write] == old(buf[..write])
    ensures Advances(s, parse, findquote, buf[write..write'], parse', findquote')
  {
    ghost var b := buf[..];
    UnreadAt(b, s, parse);
    parse', write', findquote' := parse + 1, write, findquote;
    var c := buf[parse];
    if c == '"' {
      findquote' := !findquote;
      AdvanceMark(s, parse, findquote);
      assert buf[write..write'] == "";
      return;
    }
    if c == '\\' {
      var next := PastSlashes(buf, parse, s);
      if buf[next] == '"' {
        parse', write' := ReadEscape(buf, parse, write, next - parse, findquote, s);
        return;
      }
    }
    CopyPlain(buf, parse, write, findquote, s);
    write' := write + 1;
  }

  /** Backslashes before a quote, moved down to write. */
  method ReadEscape(buf: array<char>, parse: nat, write: nat, k: nat, ghost findquote: bool, ghost s: string)
    returns (parse': nat, write': nat)
    requires Unread(buf[..], s, parse) && write <= parse < |s| && s[parse] == '\\'
    requires k == Run(s[parse..]) && parse + k < |s| && s[parse + k] == '"'
    modifies buf
    ensures parse < parse' <= |s| && write <= write' <= parse' && Unread(buf[..], s, parse')
    ensures buf[..write] == old(buf[..write])
    ensures Advances(s, parse, findquote, buf[write..write'], parse', findquote)
  {
    ghost var b := buf[..];
    parse', write' := ReadRun(buf, parse, write, k, s);
    AdvanceRun(s, parse, parse', findquote);
    UnreadFrom(b, s, parse, parse');
    UnreadKept(b, buf[..], s, parse');
  }

  /** A character that stands for itself, moved down to write. */
  method CopyPlain(buf: array<char>, parse: nat, write: nat, ghost findquote: bool, ghost s: string)
    requires IsCString(s) && Unread(buf[..], s, parse) && write <= parse < |s| && s[parse] != '"'
    requires findquote || !IsSpace(s[parse])
    requires s[parse] == '\\' ==> var next := parse + Run(s[parse..]); next == |s| || s[next] != '"'
    modifies buf
    ensures Unread(buf[..], s, parse + 1) && buf[..write] == old(buf[..write])
    ensures Advances(s, parse, findquote, buf[write..write + 1], parse + 1, findquote)
  {
    ghost var b := buf[..];
    UnreadAt(b, s, parse);
    AdvancePlain(s, parse, findquote);
    buf[write] := buf[parse];
    assert buf[write..write + 1] == [s[parse]];
    UnreadKept(b, buf[..], s, parse + 1);
  }

  lemma AdvanceMark(s: string, parse: nat, quoted: bool)
    requires parse < |s| && s[parse] == '"'
    ensures Advances(s, parse, quoted, "", parse + 1, !quoted)
  {
    var r := s[parse + 1..];
    var t := Scan(r, !quoted);
    assert Prefix("", t) == t && s[parse..] == "\"" + r;
    ReadMark(r, quoted, s[parse..], t);
  }

  lemma AdvancePlain(s: string, parse: nat, quoted: bool)
    requires parse < |s| && s[parse] != '"' && (quoted || !IsSpace(s[parse]))
    requires s[parse] == '\\' ==> var next := parse + Run(s[parse..]); next == |s| || s[next] != '"'
    ensures Advances(s, parse, quoted, [s[parse]], parse + 1, quoted)
  {
    var r := s[parse + 1..];
    assert s[parse..] == [s[parse]] + r;
    ReadPlain(s[parse..], s[parse], r, quoted, Scan(r, quoted));
  }

  lemma AdvanceRun(s: string, parse: nat, parse': nat, quoted: bool)
    requires parse < |s| && s[parse] == '\\'
    requires var k := Run(s[parse..]);
      parse + k < |s| && s[parse + k] == '"' && parse' == if k % 2 == 0 then parse + k else parse + k + 1
    ensures Advances(s, parse, quoted, Escaped(Run(s[parse..])), parse', quoted)
  {
    var t, k := s[parse..], Run(s[parse..]);
    assert t[k..] == s[parse + k..] && t[k..][1..] == s[parse + k + 1..];
    RunSplit(t);
    ReadEscaped(k, t[k..], quoted, t, s[parse'..], Scan(s[parse'..], quoted));
  }

  lemma UnreadFrom(b: string, s: string, parse: nat, parse': nat)
    requires Unread(b, s, parse) && parse <= parse' <= |s|
    ensures Unread(b, s, parse')
  {
    assert b[parse'..|s|] == b[parse..|s|][parse' - parse..];
  }

  lemma Spliced(b: string, b': string, from: nat, mid: nat, end: nat)
    requires from <= mid <= end <= |b| == |b'| && b[..mid] == b'[..mid]
    ensures b'[from..end] == b[from..mid] + b'[mid..end] && b'[..from] == b[..from]
  {
    assert b[from..mid] == b[..mid][from..mid] == b'[..mid][from..mid] == b'[from..mid];
    assert b[..from] == b[..mid][..from] == b'[..from];
  }

  /** Read one argument and move it down to write. */
  method ReadArgument(buf: array<char>, start: nat, created: nat, ghost s: string) returns (parse: nat, write: nat)
    requires IsCString(s) && Unread(buf[..], s, start) && created <= start
    modifies buf
    ensures start <= parse <= |s| && created <= write <= parse && Unread(buf[..], s, parse)
    ensures buf[..created] == old(buf[..created])
    ensures Reads(s[start..], false, Token(buf[created..write], s[parse..]))
  {
    parse, write := start, created;
    var findquote := false;
    AdvanceNot(s, start, false);
    while true
      invariant start <= parse <= |s| && created <= write <= parse && Unread(buf[..], s, parse)
      invariant buf[..created] == old(buf[..created])
      invariant Advances(s, start, false, buf[created..write], parse, findquote)
      decreases |s| - parse
    {
      UnreadAt(buf[..], s, parse);
      if buf[parse] == '\0' || (IsSpace(buf[parse]) && !findquote) {
        AdvancedTo(s, start, buf[created..write], parse, findquote);
        return;
      }
      ghost var b, w, p, q := buf[..], write, parse, findquote;
      parse, write, findquote := ReadStep(buf, parse, write, findquote, s);
      Spliced(b, buf[..], created, w, write);
      AdvancesFurther(s, start, false, b[created..w], p, q, buf[w..write], parse, findquote, buf[created..write]);
    }
  }

  lemma AdvanceNot(s: string, parse: nat, quoted: bool)
    requires parse <= |s|
    ensures Advances(s, parse, quoted, "", parse, quoted)
  {
    assert Prefix("", Scan(s[parse..], quoted)) == Scan(s[parse..], quoted);
  }

  lemma AdvancedTo(s: string, start: nat, text: string, parse: nat, quoted: bool)
    requires start <= parse <= |s| && Advances(s, start, false, text, parse, quoted)
    requires parse == |s| || (IsSpace(s[parse]) && !quoted)
    ensures Reads(s[start..], false, Token(text, s[parse..]))
  {
    assert Open(0) && Scan(s[parse..], quoted) == Token("", s[parse..]) && text + "" == text;
  }

  /** Skip the spaces at parse. */
  method SkipBlanks(buf: array<char>, start: nat, ghost s: string) returns (parse: nat)
    requires IsCString(s) && Unread(buf[..], s, start)
    ensures start <= parse <= |s| && Unread(buf[..], s, parse) && SkipSpaces(s[start..]) == s[parse..]
  {
    parse := start;
    while buf[parse] != '\0' && IsSpace(buf[parse])
      invariant start <= parse <= |s| && Unread(buf[..], s, parse)
      invariant SkipSpaces(s[start..]) == SkipSpaces(s[parse..])
      decreases |s| - parse
    {
      UnreadAt(buf[..], s, parse);
      assert s[parse..][1..] == s[parse + 1..];
      parse := parse + 1;
    }
    UnreadAt(buf[..], s, parse);
  }

  /** One round of the outer loop: read an argument and end it with a null character. */
  method ReadNext(buf: array<char>, start: nat, created: nat, ghost s: string) returns (parse: nat, write: nat)
    requires IsCString(s) && Unread(buf[..], s, start) && start < |s| && created <= start
    modifies buf
    ensures start <= parse <= |s| && (write <= parse || parse == |s|) && created < write <= |s| + 1
    ensures Unread(buf[..], s, parse)
    ensures buf[..created] == old(buf[..created])
    ensures Begins(s[start..], Token(buf[created..write - 1], s[parse..])) && buf[write - 1] == '\0'
  {
    parse := SkipBlanks(buf, start, s);
    ghost var from := parse;
    parse, write := ReadArgument(buf, parse, created, s);
    UnreadAt(buf[..], s, parse);
    ghost var b, text, end := buf[..], buf[created..write], parse;
    if buf[parse] != '\0' {
      parse := parse + 1;
    }
    BeginsWith(s, start, from, end, text, parse);
    buf[write] := '\0';
    write := write + 1;
    assert buf[created..write - 1] == text;
    if write <= parse {
      UnreadKept(b, buf[..], s, parse);
    }
  }

  lemma BeginsWith(s: string, start: nat, from: nat, end: nat, text: string, parse: nat)
    requires start < |s| && from <= end <= |s| && SkipSpaces(s[start..]) == s[from..]
    requires Reads(s[from..], false, Token(text, s[end..]))
    requires parse == if end < |s| then end + 1 else end
    ensures Begins(s[start..], Token(text, s[parse..]))
  {
    assert Open(0);
    if end < |s| {
      assert s[end..][1..] == s[parse..];
    }
  }

  /** The arguments that are kept: all but the first `skip`, up to a number of them. */
  function Kept(args: seq<string>, skip: nat, most: nat): seq<string> {
    var rest := if skip <= |args| then args[skip..] else [];
    if |rest| <= most then rest else rest[..most]
  }

  lemma StringsKept(b: string, b': string, starts: seq<nat>, args: seq<string>, end: nat, end': nat)
    requires StringsAt(b, starts, args, end) && end <= end' <= |b'| && |b| == |b'| && b[..end] == b'[..end]
    ensures StringsAt(b', starts, args, end')
  {
    forall k | 0 <= k < |starts| ensures StringAt(b', starts[k], args[k], end') {
      StringKept(b, b', starts[k], args[k], end, end');
    }
  }

  lemma StringKept(b: string, b': string, at: nat, arg: string, end: nat, end': nat)
    requires StringAt(b, at, arg, end) && end <= end' <= |b'| && |b| == |b'| && b[..end] == b'[..end]
    ensures StringAt(b', at, arg, end')
  {
    var n := |arg|;
    assert forall j :: 0 <= j < end ==> b[..end][j] == b[j] && b'[..end][j] == b'[j];
    assert b'[at..at + n] == b[at..at + n];
  }

  /** What parse_command_line stores.  It compares the count with the limit only after it has
      stored something, so if it starts at the limit it stores everything. */
  function Stored(args: seq<string>, skip: nat, count: nat, maxargs: nat): seq<string> {
    if count < maxargs then Kept(args, skip, maxargs - count) else After(args, skip)
  }

  /** Storing n arguments from count on leaves an array of maxargs + 1 places. */
  predicate PastEnd(n: nat, count: nat, maxargs: nat) {
    count >= maxargs && n > 0 && count + n > maxargs + 1
  }

  /** parse_command_line: the arguments of the line in the buffer, moved within the buffer;
      `starts` says where each one starts, and `overran` whether one of them has been stored
      past the end of a command array of maxargs + 1 places. */
  method ParseCommandLine(buf: array<char>, count: nat, maxargs: nat, skip: nat, ghost s: string)
    returns (starts: seq<nat>, overran: bool)
    requires IsCString(s) && Unread(buf[..], s, 0)
    modifies buf
    ensures StringsAt(buf[..], starts, Stored(Arguments(s), skip, count, maxargs), buf.Length)
    ensures overran <==> PastEnd(|After(Arguments(s), skip)|, count, maxargs)
  {
    starts, overran := [], false;
    var parse, created, left := 0, 0, skip;
    ghost var all, done: seq<string>, todo := Arguments(s), [], Arguments(s);
    assert s[0..] == s;
    while buf[parse] != '\0'
      invariant Progress(buf[..], s, parse, created, left, starts, all, done, todo, skip)
      invariant count < maxargs ==> count + |starts| < maxargs
      invariant overran <==> PastEnd(|starts|, count, maxargs)
      decreases |s| - parse
    {
      var stored := |starts|;
      parse, created, left, starts, done, todo :=
        ParseRound(buf, parse, created, left, starts, all, done, todo, skip, s);
      if |starts| > stored {
        overran := overran || count + stored > maxargs;
        if count + |starts| == maxargs {
          AllParsed(buf[..], s, parse, created, left, starts, all, done, todo, skip, maxargs - count);
          return;
        }
      }
    }
    UnreadAt(buf[..], s, parse);
    ghost var most := if count < maxargs then maxargs - count else |starts|;
    AllParsed(buf[..], s, parse, created, left, starts, all, done, todo, skip, most);
    LineDone(buf[..], s, parse, created, left, starts, all, done, todo, skip);
  }

  lemma LineDone(b: string, s: string, parse: nat, created: nat, left: nat, starts: seq<nat>, all: seq<string>,
      done: seq<string>, todo: seq<string>, skip: nat)
    requires Progress(b, s, parse, created, left, starts, all, done, todo, skip) && parse == |s|
    ensures |starts| == |After(all, skip)| && Kept(all, skip, |starts|) == After(all, skip)
  {
    assert s[parse..] == "";
    NothingSplits(todo);
    assert done + [] == done;
  }

  const MAX_ARGS := 100

  /** How the program gathers its arguments under WinMain: those of the embedded line after
      the program's name, then those of the actual command line without its first, then a null
      pointer.  It writes past the end of its array exactly if the embedded line fills the
      array and one more argument is given. */
  method GatherArguments(input: array<char>, line: array<char>, ghost embedded: string, ghost given: string)
    returns (first: seq<nat>, second: seq<nat>, overran: bool)
    requires input != line && IsCString(embedded) && IsCString(given)
    requires Unread(input[..], embedded, 0) && Unread(line[..], given, 0)
    modifies input, line
    ensures StringsAt(input[..], first, Kept(Arguments(embedded), 0, MAX_ARGS - 1), input.Length)
    ensures !overran ==>
      StringsAt(line[..], second, Kept(Arguments(given), 1, MAX_ARGS - 1 - |first|), line.Length)
    ensures overran <==> |Arguments(embedded)| >= MAX_ARGS - 1 && |Arguments(given)| > 1
  {
    var before, after;
    first, before := ParseCommandLine(input, 1, MAX_ARGS, 0, embedded);
    second, after := ParseCommandLine(line, 1 + |first|, MAX_ARGS, 1, given);
    overran := before || after || 1 + |first| + |second| > MAX_ARGS;
  }

  /** The same under wmain, where the arguments come in an array. */
  method CopyArguments(input: array<char>, argc: nat, ghost embedded: string) returns (count: nat, overran: bool)
    requires IsCString(embedded) && Unread(input[..], embedded, 0) && argc > 0
    modifies input
    ensures count == |Kept(Arguments(embedded), 0, MAX_ARGS - 1)| + argc
    ensures overran <==> count > MAX_ARGS
  {
    var first;
    first, overran := ParseCommandLine(input, 1, MAX_ARGS, 0, embedded);
    count := 1 + |first|;
    for i := 1 to argc
      invariant count == |first| + i && (overran <==> count > MAX_ARGS + 1)
    {
      overran := overran || count > MAX_ARGS;
      count := count + 1;
    }
    overran := overran || count > MAX_ARGS;
  }

  function ShortArguments(n: nat): seq<string> { seq(n, i => "a") }

  /** There are lines of any number of arguments. */
  lemma ShortLine(n: nat)
    ensures var line := CommandLine(ShortArguments(n));
      IsCString(line) && Arguments(line) == ShortArguments(n) && |Arguments(line)| == n
  {
    var args := ShortArguments(n);
    assert Survives("a");
    RoundTrip(args);
    assert Protected("a") == "a";
    JoinIsCString("", ProtectedAll(args));
  }

  lemma {:induction false} JoinIsCString(line: string, args: seq<string>)
    requires IsCString(line) && forall i :: 0 <= i < |args| ==> IsCString(args[i])
    ensures IsCString(JoinOnto(line, args))
    decreases |args|
  {
    if args != [] {
      JoinIsCString((if line == "" then "" else line + " ") + args[0], args[1..]);
    }
  }

  /** An embedded line of 99 arguments, with one more argument given after the program's name:
      `GatherArguments` overruns. */
  lemma GatherOverrun() returns (embedded: string, given: string)
    ensures IsCString(embedded) && IsCString(given)
    ensures |Arguments(embedded)| >= MAX_ARGS - 1 && |Arguments(given)| > 1
  {
    ShortLine(MAX_ARGS - 1);
    ShortLine(2);
    return CommandLine(ShortArguments(MAX_ARGS - 1)), CommandLine(ShortArguments(2));
  }

  /** The limit or the end of the line is reached. */
  lemma AllParsed(b: string, s: string, parse: nat, created: nat, left: nat, starts: seq<nat>, all: seq<string>,
      done: seq<string>, todo: seq<string>, skip: nat, most: nat)
    requires Progress(b, s, parse, created, left, starts, all, done, todo, skip) && |starts| <= most
    requires (|starts| == most && skip <= |done|) || parse == |s|
    ensures StringsAt(b, starts, Kept(all, skip, most), |b|)
  {
    if parse == |s| {
      assert s[parse..] == "";
      NothingSplits(todo);
    }
    KeptAll(done, todo, skip, most);
    StringsKept(b, b, starts, After(done, skip), created, |b|);
  }

  lemma NothingSplits(todo: seq<string>)
    requires Splits("", todo)
    ensures todo == []
  {
    assert Open(0);
  }

  /** The state between two arguments: those read so far are `done`, and the ones after the
      skipped ones are where `starts` says. */
  ghost predicate Progress(b: string, s: string, parse: nat, created: nat, left: nat, starts: seq<nat>,
      all: seq<string>, done: seq<string>, todo: seq<string>, skip: nat) {
    && IsCString(s) && Unread(b, s, parse)
    && (created <= parse || parse == |s|) && created <= |s| + 1
    && Splits(s[parse..], todo) && all == done + todo
    && left == (if |done| <= skip then skip - |done| else 0)
    && StringsAt(b, starts, After(done, skip), created)
  }

  method ParseRound(buf: array<char>, parse: nat, created: nat, left: nat, starts: seq<nat>, ghost all: seq<string>,
      ghost done: seq<string>, ghost todo: seq<string>, ghost skip: nat, ghost s: string)
    returns (parse': nat, write: nat, left': nat, starts': seq<nat>, ghost done': seq<string>, ghost todo': seq<string>)
    requires Progress(buf[..], s, parse, created, left, starts, all, done, todo, skip) && buf[parse] != '\0'
    modifies buf
    ensures Progress(buf[..], s, parse', write, left', starts', all, done', todo', skip) && parse < parse'
    ensures |starts| <= |starts'| <= |starts| + 1 && (|starts'| > |starts| ==> skip <= |done'|)
  {
    UnreadAt(buf[..], s, parse);
    ghost var b := buf[..];
    parse', write := ReadNext(buf, parse, created, s);
    ghost var text := buf[created..write - 1];
    todo' := SplitsRest(s[parse..], text, s[parse'..], all, done, todo);
    StringsKept(b, buf[..], starts, After(done, skip), created, write);
    NewString(buf[..], created, text, write);
    left', starts', done' := left, starts, done;
    if buf[created] != '\0' {
      done' := done + [text];
      if left > 0 {
        left' := left - 1;
      } else {
        AddString(buf[..], starts, done, text, skip, created, write);
        starts' := starts + [created];
      }
    }
  }

  /** The string just written; it is empty exactly if it starts with its null character. */
  lemma NewString(b: string, created: nat, text: string, write: nat)
    requires created < write <= |b| && text == b[created..write - 1] && b[write - 1] == '\0' && IsCString(text)
    ensures b[created] == '\0' <==> text == ""
    ensures StringAt(b, created, text, write)
  {
    assert text != "" ==> b[created] == text[0] && text[0] in text;
  }

  lemma AddString(b: string, starts: seq<nat>, done: seq<string>, text: string, skip: nat, created: nat, write: nat)
    requires StringsAt(b, starts, After(done, skip), write) && StringAt(b, created, text, write) && skip <= |done|
    ensures StringsAt(b, starts + [created], After(done + [text], skip), write)
  {
    AfterMore(done, text, skip);
  }

  function After(args: seq<string>, skip: nat): seq<string> { if skip <= |args| then args[skip..] else [] }

  lemma AfterMore(done: seq<string>, text: string, skip: nat)
    requires skip <= |done|
    ensures After(done + [text], skip) == After(done, skip) + [text]
  {
  }

  lemma KeptAll(done: seq<string>, more: seq<string>, skip: nat, most: nat)
    requires |After(done, skip)| == most || (more == [] && |After(done, skip)| <= most)
    requires more != [] ==> skip <= |done|
    ensures Kept(done + more, skip, most) == After(done, skip)
  {
    if more == [] {
      assert done + more == done;
    } else {
      assert (done + more)[skip..] == done[skip..] + more;
    }
  }

  lemma {:induction false} ScanIsCString(s: string, quoted: bool)
    requires IsCString(s)
    ensures IsCString(Scan(s, quoted).text)
    decreases |s|
  {
    if s == "" || (IsSpace(s[0]) && !quoted) {
    } else if s[0] == '"' {
      ScanIsCString(s[1..], !quoted);
    } else if s[0] == '\\' && Run(s) < |s| && s[Run(s)] == '"' {
      SlashesAre(Run(s) / 2);
      ScanIsCString(s[if Run(s) % 2 == 0 then Run(s) else Run(s) + 1..], quoted);
    } else {
      assert s[0] in s;
      ScanIsCString(s[1..], quoted);
    }
  }

  lemma {:induction false} SkipIsCString(s: string)
    requires IsCString(s)
    ensures IsCString(SkipSpaces(s))
  {
    if s != "" && IsSpace(s[0]) {
      SkipIsCString(s[1..]);
    }
  }

  lemma SplitsRest(s: string, text: string, rest: string, all: seq<string>, done: seq<string>,
      todo: seq<string>) returns (todo': seq<string>)
    requires IsCString(s) && Begins(s, Token(text, rest)) && Splits(s, todo) && all == done + todo
    ensures Splits(rest, todo') && all == (if text == "" then done else done + [text]) + todo'
    ensures IsCString(text) && |rest| < |s|
  {
    todo' := Arguments(rest);
    assert todo == (if text == "" then [] else [text]) + todo' && |rest| < |s| by { assert Open(0); }
    assert IsCString(text) by {
      assert Open(0);
      SkipIsCString(s);
      ScanIsCString(SkipSpaces(s), false);
    }
  }
}
