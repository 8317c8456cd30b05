/** Quoting and splitting are inverse to each other, up to the arguments for which they are
    not. */
module LauncherRoundTrip {
  import opened Locks
  import opened Launcher

  // Backslashes

  lemma {:induction false} BodySlashes(k: nat, t: string, w: nat)
    ensures Body(Slashes(k) + t, w) == Slashes(k) + Body(t, w + k)
    decreases k
  {
    if k == 0 {
      assert Slashes(0) + t == t;
    } else {
      var s := Slashes(k) + t;
      assert s[1..] == Slashes(k - 1) + t && s[0] == '\\';
      BodySlashes(k - 1, t, w + 1);
      Regroup("\\", Slashes(k - 1), Body(t, w + k));
    }
  }

  lemma RunSplit(s: string)
    ensures s == Slashes(Run(s)) + s[Run(s)..]
  {
    SlashesAre(Run(s));
  }

  lemma {:induction false} RunOf(k: nat, t: string)
    requires t == "" || t[0] != '\\'
    ensures var s := Slashes(k) + t; Run(s) == k && |s| == k + |t| && s[k..] == t
  {
    if k == 0 {
      assert Slashes(0) + t == t;
    } else {
      var s := Slashes(k) + t;
      assert s[1..] == Slashes(k - 1) + t;
      RunOf(k - 1, t);
      assert s[k..] == s[1..][k - 1..];
    }
  }

  lemma Regroup(a: string, b: string, c: string)
    ensures (a + b) + c == a + (b + c)
  {
  }

  lemma PrefixPrefix(p: string, q: string, t: Token, r: string)
    requires r == p + q
    ensures Prefix(p, Prefix(q, t)) == Prefix(r, t)
  {
    Regroup(p, q, t.text);
  }

  // Reading

  /** A character that stands for itself. */
  lemma ReadPlain(s: string, c: char, t: string, quoted: bool, r: Token)
    requires s == [c] + t && c != '"' && (quoted || !IsSpace(c)) && (c == '\\' ==> Run(s) == |s| || s[Run(s)] != '"')
    requires Reads(t, quoted, r)
    ensures Reads(s, quoted, Prefix([c], r))
  {
    assert Open(0) && s[0] == c && s[1..] == t;
  }

  /** Backslashes that no quote follows stand for themselves. */
  lemma {:induction false} ReadSlashes(k: nat, t: string, quoted: bool, s: string, r: Token)
    requires (t == "" || (t[0] != '\\' && t[0] != '"')) && s == Slashes(k) + t && Reads(t, quoted, r)
    ensures Reads(s, quoted, Prefix(Slashes(k), r))
    decreases k
  {
    if k == 0 {
      assert s == t && Prefix(Slashes(0), r) == r;
    } else {
      var u := Slashes(k - 1) + t;
      ReadSlashes(k - 1, t, quoted, u, r);
      ReadSlash(k, t, quoted, s, u, Prefix(Slashes(k - 1), r));
      PrefixPrefix(['\\'], Slashes(k - 1), r, Slashes(k));
    }
  }

  lemma ReadSlash(k: nat, t: string, quoted: bool, s: string, u: string, r: Token)
    requires k > 0 && (t == "" || (t[0] != '\\' && t[0] != '"')) && s == Slashes(k) + t && u == Slashes(k - 1) + t
    requires Reads(u, quoted, r)
    ensures Reads(s, quoted, Prefix(['\\'], r))
  {
    RunOf(k, t);
    assert s == ['\\'] + u;
    ReadPlain(s, '\\', u, quoted, r);
  }

  /** Backslashes before a quote. */
  lemma ReadEscaped(k: nat, t: string, quoted: bool, s: string, next: string, r: Token)
    requires t != "" && t[0] == '"' && s == Slashes(k) + t && next == (if k % 2 == 0 then t else t[1..])
    requires Reads(next, quoted, r)
    ensures Reads(s, quoted, Prefix(Escaped(k), r))
  {
    assert Open(0);
    RunOf(k, t);
    if k == 0 {
      assert s == t && Prefix(Escaped(0), r) == r;
    } else {
      assert s[0] == '\\' && s[k] == '"' && s[k + 1..] == t[1..];
    }
  }

  /** A quote by itself opens or closes. */
  lemma ReadMark(r: string, quoted: bool, text: string, t: Token)
    requires text == "\"" + r && Reads(r, !quoted, t)
    ensures Reads(text, quoted, t)
  {
    assert Open(0) && text[0] == '"' && text[1..] == r;
  }

  /** The four characters written for a quote. */
  lemma ReadQuote(r: string, s: string, t: Token)
    requires s == "\"\\\"\"" + r && Reads(r, true, t)
    ensures Reads(s, true, Prefix("\"", t))
  {
    var a, b, c := "\\\"\"" + r, "\"\"" + r, "\"" + r;
    ReadMark(r, false, c, t);
    assert a == Slashes(1) + b by { assert Slashes(1) == "\\" + Slashes(0); }
    assert b[1..] == c;
    ReadEscaped(1, b, false, a, c, t);
    assert Escaped(1) == "\"" by { assert Slashes(0) == ""; }
    assert s == "\"" + a;
    ReadMark(a, true, s, Prefix("\"", t));
  }

  /** What Body writes first. */
  lemma BodyStart(u: string, k: nat, t: string, c: char, v: string)
    requires k == Run(u) && k < |u| && t == u[k..] && c == u[k] && v == u[k + 1..]
    ensures Body(u, 0) == (if c == '"' then Slashes(2 * k) + "\"\\\"\"" else Slashes(k) + [c]) + Body(v, 0)
  {
    RunSplit(u);
    BodySlashes(k, t, 0);
    assert t[0] == c && t[1..] == v;
    if c == '"' {
      var quote := "\"\\\"\"";
      SlashesAdd(k, k);
      Regroup(Slashes(k), Slashes(k), quote);
      Regroup(Slashes(k), Slashes(k) + quote, Body(v, 0));
    } else {
      Regroup(Slashes(k), [c], Body(v, 0));
    }
  }

  lemma EscapedTwice(k: nat, m: nat)
    requires m == 2 * k
    ensures Escaped(m) == Slashes(k)
  {
    assert m % 2 == 0 && m / 2 == k;
  }

  /** The characters up to and including the first one that is no backslash. */
  lemma ReadStart(k: nat, c: char, r: string, text: string, t: Token)
    requires c != '\\' && Reads(r, true, t)
    requires text == (if c == '"' then Slashes(2 * k) + "\"\\\"\"" else Slashes(k) + [c]) + r
    ensures Reads(text, true, Prefix(Slashes(k) + [c], t))
  {
    if c == '"' {
      var s := "\"\\\"\"" + r;
      Regroup(Slashes(2 * k), "\"\\\"\"", r);
      ReadQuote(r, s, t);
      assert 2 * k % 2 == 0;
      ReadEscaped(2 * k, s, true, text, s, Prefix("\"", t));
      EscapedTwice(k, 2 * k);
    } else {
      var s := [c] + r;
      Regroup(Slashes(k), [c], r);
      ReadPlain(s, c, r, true, t);
      ReadSlashes(k, s, true, text, Prefix([c], t));
    }
    PrefixPrefix(Slashes(k), [c], t, Slashes(k) + [c]);
  }

  lemma ReadHead(u: string, k: nat, head: string, v: string, tail: string, r: string, text: string, t: Token)
    requires k == Run(u) && k < |u| && head == u[..k + 1] && v == u[k + 1..]
    requires text == Body(u, 0) + tail && r == Body(v, 0) + tail && Reads(r, true, t)
    ensures Reads(text, true, Prefix(head, t))
  {
    var c := u[k];
    var written := if c == '"' then Slashes(2 * k) + "\"\\\"\"" else Slashes(k) + [c];
    assert text == written + r by {
      BodyStart(u, k, u[k..], c, v);
      Regroup(written, Body(v, 0), tail);
    }
    ReadStart(k, c, r, text, t);
    RunSplit(u);
    assert head == Slashes(k) + [c];
  }

  /** The body of a quoted argument is read as the argument, up to a last backslash. */
  lemma {:induction false} ReadBody(u: string, tail: string, text: string, t: Token)
    requires !EndsInSlash(u) && text == Body(u, 0) + tail && Reads(tail, true, t)
    ensures Reads(text, true, Prefix(u, t))
    decreases |u|
  {
    if u == "" {
      assert text == tail && Prefix(u, t) == t;
    } else {
      var k := Run(u);
      assert u[|u| - 1] != '\\';
      var head, v := u[..k + 1], u[k + 1..];
      var r := Body(v, 0) + tail;
      ReadBody(v, tail, r, t);
      ReadHead(u, k, head, v, tail, r, text, Prefix(v, t));
      PrefixPrefix(head, v, t, u);
    }
  }

  /** The end of the line, or a space that ends an argument. */
  predicate Ends(rest: string) { rest == "" || rest[0] == ' ' }

  lemma ReadNothing(rest: string)
    requires Ends(rest)
    ensures Reads(rest, false, Token("", rest))
  {
  }

  lemma {:induction false} ReadUnquoted(s: string, rest: string, text: string)
    requires !NeedsQuotes(s) && Ends(rest) && text == s + rest
    ensures Reads(text, false, Token(s, rest))
    decreases |s|
  {
    if s == "" {
      ReadNothing(rest);
      assert text == rest;
    } else {
      var c, u := s[0], s[1..] + rest;
      assert c in s && forall x :: x in s[1..] ==> x in s;
      assert text == [c] + u && s == [c] + s[1..];
      NoQuoteAfter(s, rest, text);
      ReadUnquoted(s[1..], rest, u);
      ReadPlain(text, c, u, false, Token(s[1..], rest));
    }
  }

  /** Backslashes in an argument without quotes are not followed by a quote. */
  lemma NoQuoteAfter(s: string, rest: string, text: string)
    requires !NeedsQuotes(s) && Ends(rest) && text == s + rest
    ensures Run(text) == |text| || text[Run(text)] != '"'
  {
    var k := Run(text);
    assert |s| < |text| ==> text[|s|] == ' ';
    assert k < |s| ==> text[k] == s[k] && s[k] in s;
  }

  lemma ReadClosing(rest: string, text: string)
    requires Ends(rest) && text == "\"" + rest
    ensures Reads(text, true, Token("", rest))
  {
    ReadNothing(rest);
    ReadMark(rest, true, text, Token("", rest));
  }

  /** A quoted argument is read inside quotes. */
  lemma ReadOpening(s: string, end: string, rest: string, text: string, t: Token)
    requires NeedsQuotes(s) && text == Protected(s) + rest && end == "\"" + rest && Reads(Body(s, 0) + end, true, t)
    ensures Reads(text, false, t)
  {
    var b := Body(s, 0);
    assert ("\"" + b + "\"") + rest == "\"" + (b + ("\"" + rest));
    ReadMark(b + end, false, text, t);
  }

  lemma ReadProtected(s: string, rest: string, text: string)
    requires Survives(s) && Ends(rest) && text == Protected(s) + rest
    ensures Reads(text, false, Token(s, rest))
  {
    if NeedsQuotes(s) {
      var end := "\"" + rest;
      ReadClosing(rest, end);
      ReadBody(s, end, Body(s, 0) + end, Token("", rest));
      assert Prefix(s, Token("", rest)) == Token(s, rest);
      ReadOpening(s, end, rest, text, Token(s, rest));
    } else {
      ReadUnquoted(s, rest, text);
    }
  }

  // An argument that is quoted and ends in backslashes

  lemma {:induction false} TailRun(s: string) returns (u: string, k: nat)
    ensures s == u + Slashes(k) && !EndsInSlash(u) && (EndsInSlash(s) ==> k > 0)
  {
    if EndsInSlash(s) {
      u, k := TailRun(s[..|s| - 1]);
      SlashesAdd(k, 1);
      assert Slashes(1) == "\\" + Slashes(0);
      assert s == (u + Slashes(k)) + "\\";
      Regroup(u, Slashes(k), "\\");
      k := k + 1;
    } else {
      u, k := s, 0;
    }
  }

  lemma {:induction false} BodyAppendSlashes(u: string, k: nat, w: nat)
    ensures Body(u + Slashes(k), w) == Body(u, w) + Slashes(k)
    decreases |u|
  {
    if u == "" {
      BodySlashes(k, "", w);
      assert u + Slashes(k) == Slashes(k) && Slashes(k) + "" == Slashes(k);
    } else {
      var s := u + Slashes(k);
      assert s[0] == u[0] && s[1..] == u[1..] + Slashes(k);
      BodyAppendSlashes(u[1..], k, if u[0] == '\\' then w + 1 else 0);
    }
  }

  /** What is read of the last k backslashes and the closing quote: the quote is taken for
      an escaped one, or half of the backslashes get lost. */
  lemma ReadTail(k: nat, rest: string, end: string, tail: string) returns (t: Token)
    requires Ends(rest) && end == "\"" + rest && tail == Slashes(k) + end && k > 0
    ensures Reads(tail, true, t)
    ensures (|t.text| > k / 2 && t.text[k / 2] == '"') || |t.text| == k / 2 > 0
  {
    var next, r := end, Token("", rest);
    if k % 2 == 0 {
      ReadClosing(rest, end);
    } else {
      next, r := rest, Scan(rest, true);
      assert end[1..] == rest && Reads(rest, true, r);
    }
    ReadEscaped(k, end, true, tail, next, r);
    SlashesAre(k / 2);
    t := Prefix(Escaped(k), r);
  }

  lemma ReadBroken(s: string, rest: string, text: string) returns (t: Token)
    requires NeedsQuotes(s) && EndsInSlash(s) && Ends(rest) && text == Protected(s) + rest
    ensures Reads(text, false, t) && t.text != s && t.text != ""
  {
    var u, k := TailRun(s);
    var end := "\"" + rest;
    var tail := Slashes(k) + end;
    var r := ReadTail(k, rest, end, tail);
    assert Body(u, 0) + tail == Body(s, 0) + end by {
      BodyAppendSlashes(u, k, 0);
      Regroup(Body(u, 0), Slashes(k), end);
    }
    t := Prefix(u, r);
    ReadBody(u, tail, Body(u, 0) + tail, r);
    ReadOpening(s, end, rest, text, t);
    Unlike(u, k, s, r.text);
  }

  lemma Unlike(u: string, k: nat, s: string, t: string)
    requires k > 0 && s == u + Slashes(k) && ((|t| > k / 2 && t[k / 2] == '"') || |t| == k / 2 > 0)
    ensures u + t != s && u + t != ""
  {
    SlashesAre(k);
    assert |t| > k / 2 ==> (u + t)[|u| + k / 2] == t[k / 2] && s[|u| + k / 2] == '\\';
  }

  // A whole command line

  /** What follows the first argument. */
  function More(args: seq<string>): (r: string)
    ensures Ends(r)
  {
    if args == [] then "" else " " + Protected(args[0]) + More(args[1..])
  }

  lemma {:induction false} JoinMore(line: string, args: seq<string>)
    requires line != ""
    ensures JoinOnto(line, ProtectedAll(args)) == line + More(args)
    decreases |args|
  {
    if args == [] {
      assert line + "" == line;
    } else {
      var p := Protected(args[0]);
      var next := line + " " + p;
      assert ProtectedAll(args)[1..] == ProtectedAll(args[1..]);
      JoinMore(next, args[1..]);
      assert next + More(args[1..]) == line + (" " + p + More(args[1..]));
    }
  }

  lemma {:induction false} NoEmptyArguments(s: string)
    ensures "" !in Arguments(s)
    decreases |s|
  {
    if s != "" {
      NoEmptyArguments(First(s).rest);
    }
  }

  /** No argument written starts with a space. */
  lemma NothingToSkip(a: string, more: string, s: string)
    requires a != "" && s == Protected(a) + more
    ensures s != "" && SkipSpaces(s) == s
  {
    assert !NeedsQuotes(a) ==> a[0] in a && s[0] == a[0];
  }

  lemma FirstArgument(a: string, args: seq<string>, s: string) returns (t: Token)
    requires a != "" && s == Protected(a) + More(args)
    ensures Begins(s, t) && t.text != "" && (Survives(a) <==> t.text == a)
    ensures Survives(a) ==> t.rest == if args == [] then "" else Protected(args[0]) + More(args[1..])
  {
    var more := More(args);
    NothingToSkip(a, more, s);
    var r;
    if Survives(a) {
      r := Token(a, more);
      ReadProtected(a, more, s);
      AfterSpace(args);
    } else {
      r := ReadBroken(a, more, s);
    }
    t := if r.rest == "" then r else Token(r.text, r.rest[1..]);
    FirstIs(s, r, t);
  }

  lemma FirstIs(s: string, r: Token, t: Token)
    requires s != "" && SkipSpaces(s) == s && Reads(s, false, r)
    requires t == if r.rest == "" then r else Token(r.text, r.rest[1..])
    ensures Begins(s, t)
  {
    assert Open(0);
  }

  lemma AfterSpace(args: seq<string>)
    ensures if args == [] then More(args) == ""
      else More(args) != "" && More(args)[1..] == Protected(args[0]) + More(args[1..])
  {
    if args != [] {
      Regroup(" ", Protected(args[0]), More(args[1..]));
    }
  }

  /** Read the first argument, then the others. */
  lemma SplitsOne(s: string, t: Token, args: seq<string>)
    requires Begins(s, t) && t.text != "" && Splits(t.rest, args)
    ensures Splits(s, [t.text] + args)
  {
    assert Open(0);
  }

  lemma {:induction false} SplitsBack(a: string, args: seq<string>, s: string) returns (r: seq<string>)
    requires a != "" && "" !in args && s == Protected(a) + More(args)
    ensures Splits(s, r) && (r == [a] + args <==> Survives(a) && forall x :: x in args ==> Survives(x))
    decreases |args|
  {
    var t := FirstArgument(a, args, s);
    var more := Arguments(t.rest);
    assert Splits(t.rest, more);
    if Survives(a) && args != [] {
      assert args == [args[0]] + args[1..];
      var again := SplitsBack(args[0], args[1..], t.rest);
      SplitsSame(t.rest, again, more);
    } else if Survives(a) {
      assert more == [];
    }
    SplitsOne(s, t, more);
    r := [t.text] + more;
    assert r[0] == t.text && r[1..] == more && ([a] + args)[0] == a && ([a] + args)[1..] == args;
  }

  lemma SplitsSame(s: string, a: seq<string>, b: seq<string>)
    requires Splits(s, a) && Splits(s, b)
    ensures a == b
  {
    assert Open(0);
  }

  /** Splitting the command line gives back the arguments exactly if none is empty and none
      both needs quotes and ends in a backslash. */
  lemma RoundTrip(args: seq<string>)
    ensures Arguments(CommandLine(args)) == args <==> forall a :: a in args ==> Survives(a)
  {
    var s := CommandLine(args);
    NoEmptyArguments(s);
    if args != [] && "" !in args {
      var a, more := args[0], args[1..];
      assert args == [a] + more && ProtectedAll(args)[1..] == ProtectedAll(more);
      assert "" + Protected(a) == Protected(a);
      JoinMore(Protected(a), more);
      var r := SplitsBack(a, more, s);
      SplitsSame(s, r, Arguments(s));
    }
  }
}
