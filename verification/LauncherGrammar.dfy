/** An account of command lines that does not say how they are scanned: an argument is written
    as a sequence of pieces, each of which stands for some characters.  Every line has such a
    reading, and splitting it gives what its pieces stand for. */
module LauncherGrammar {
  import opened Locks
  import opened Launcher
  import opened LauncherRoundTrip

  /** A character that stands for itself; pairs of backslashes and a quote that opens or closes;
      or pairs of backslashes, one more, and a quote that stands for itself. */
  datatype Piece = Plain(c: char) | Flip(pairs: nat) | Mark(pairs: nat)

  function Text(p: Piece): string {
    match p
    case Plain(c) => [c]
    case Flip(n) => Slashes(2 * n) + "\""
    case Mark(n) => Slashes(2 * n + 1) + "\""
  }

  function Value(p: Piece): string {
    match p
    case Plain(c) => [c]
    case Flip(n) => Slashes(n)
    case Mark(n) => Slashes(n) + "\""
  }

  function Written(ps: seq<Piece>): string {
    if ps == [] then "" else Text(ps[0]) + Written(ps[1..])
  }

  function Meant(ps: seq<Piece>): string {
    if ps == [] then "" else Value(ps[0]) + Meant(ps[1..])
  }

  /** Behind any backslashes at its start, s has a quote. */
  predicate QuoteFollows(s: string) { Run(s) < |s| && s[Run(s)] == '"' }

  /** Quotes, white space outside quotes, and backslashes before a quote do not stand for
      themselves. */
  predicate Stands(p: Piece, quoted: bool, rest: string) {
    p.Plain? ==>
      p.c != '"' && (quoted || !IsSpace(p.c)) && (p.c == '\\' ==> !QuoteFollows("\\" + rest))
  }

  /** The pieces are an argument, which ends with the line or before white space outside quotes. */
  predicate Argument(ps: seq<Piece>, quoted: bool, rest: string) {
    if ps == [] then rest == "" || (IsSpace(rest[0]) && !quoted)
    else
      && Stands(ps[0], quoted, Written(ps[1..]) + rest)
      && Argument(ps[1..], if ps[0].Flip? then !quoted else quoted, rest)
  }

  lemma EscapedOdd(n: nat, k: nat)
    requires k == 2 * n + 1
    ensures Escaped(k) == Slashes(n) + "\""
  {
    assert k % 2 == 1 && k / 2 == n;
  }

  /** One piece in front of a text that reads as t. */
  lemma ReadPiece(p: Piece, rest: string, s: string, quoted: bool, t: Token)
    requires Stands(p, quoted, rest) && s == Text(p) + rest
    requires Reads(rest, if p.Flip? then !quoted else quoted, t)
    ensures Reads(s, quoted, Prefix(Value(p), t))
  {
    var q := "\"" + rest;
    assert q[1..] == rest;
    match p
    case Plain(c) =>
      assert c == '\\' ==> s == "\\" + rest;
      ReadPlain(s, c, rest, quoted, t);
    case Flip(n) =>
      Regroup(Slashes(2 * n), "\"", rest);
      ReadMark(rest, quoted, q, t);
      assert 2 * n % 2 == 0;
      ReadEscaped(2 * n, q, quoted, s, q, t);
      EscapedTwice(n, 2 * n);
    case Mark(n) =>
      Regroup(Slashes(2 * n + 1), "\"", rest);
      assert (2 * n + 1) % 2 == 1;
      ReadEscaped(2 * n + 1, q, quoted, s, rest, t);
      EscapedOdd(n, 2 * n + 1);
  }

  /** An argument is read as what its pieces stand for. */
  lemma {:induction false} ReadPieces(ps: seq<Piece>, quoted: bool, rest: string)
    requires Argument(ps, quoted, rest)
    ensures Scan(Written(ps) + rest, quoted) == Token(Meant(ps), rest)
    decreases |ps|
  {
    if ps == [] {
      assert "" + rest == rest;
    } else {
      var next := if ps[0].Flip? then !quoted else quoted;
      var tail, t := Written(ps[1..]) + rest, Token(Meant(ps[1..]), rest);
      ReadPieces(ps[1..], next, rest);
      assert Written(ps) + rest == Text(ps[0]) + tail;
      ReadPiece(ps[0], tail, Written(ps) + rest, quoted, t);
      assert Scan(Written(ps) + rest, quoted) == Prefix(Value(ps[0]), t) by { assert Open(0); }
    }
  }

  /** Every line starts with an argument, possibly an empty one. */
  lemma {:induction false} EveryLine(s: string, quoted: bool) returns (ps: seq<Piece>, rest: string)
    ensures s == Written(ps) + rest && Argument(ps, quoted, rest)
    decreases |s|
  {
    if s == "" || (IsSpace(s[0]) && !quoted) {
      return [], s;
    }
    var k := Run(s);
    var p := if !QuoteFollows(s) then Plain(s[0]) else if k % 2 == 0 then Flip(k / 2) else Mark(k / 2);
    TextStarts(s, p, k);
    var tail := s[|Text(p)|..];
    var next := if p.Flip? then !quoted else quoted;
    ps, rest := EveryLine(tail, next);
    assert ([p] + ps)[1..] == ps;
    Regroup(Text(p), Written(ps), rest);
    ps := [p] + ps;
  }

  lemma TextOf(p: Piece, k: nat)
    requires p == if k % 2 == 0 then Flip(k / 2) else Mark(k / 2)
    ensures Text(p) == Slashes(k) + "\""
  {
    assert k == if k % 2 == 0 then 2 * (k / 2) else 2 * (k / 2) + 1;
  }

  lemma QuoteAt(s: string, k: nat)
    requires k == Run(s) && QuoteFollows(s)
    ensures var t := Slashes(k) + "\""; |t| == k + 1 <= |s| && s == t + s[k + 1..]
  {
    RunSplit(s);
    SlashesAre(k);
    assert s[k..] == "\"" + s[k + 1..];
    Regroup(Slashes(k), "\"", s[k + 1..]);
  }

  lemma TextStarts(s: string, p: Piece, k: nat)
    requires s != "" && k == Run(s)
    requires p == if !QuoteFollows(s) then Plain(s[0]) else if k % 2 == 0 then Flip(k / 2) else Mark(k / 2)
    ensures 0 < |Text(p)| <= |s| && s == Text(p) + s[|Text(p)|..]
  {
    if QuoteFollows(s) {
      QuoteAt(s, k);
      TextOf(p, k);
    }
  }

  /** The arguments of a line are what the pieces of its first argument stand for, unless that is
      empty, and the arguments of the rest after one character of white space. */
  lemma FirstArgument(blank: string, ps: seq<Piece>, rest: string, s: string)
    requires (forall c :: c in blank ==> IsSpace(c)) && Argument(ps, false, rest) && (ps == [] ==> rest == "")
    requires s == blank + (Written(ps) + rest) && s != ""
    ensures Arguments(s) ==
      (if Meant(ps) == "" then [] else [Meant(ps)]) + Arguments(if rest == "" then "" else rest[1..])
  {
    var t := Written(ps) + rest;
    ReadPieces(ps, false, rest);
    StartsArgument(ps, rest);
    SkipBlank(blank, t, s);
  }

  lemma StartsArgument(ps: seq<Piece>, rest: string)
    requires Argument(ps, false, rest) && (ps == [] ==> rest == "")
    ensures var t := Written(ps) + rest; t == "" || !IsSpace(t[0])
  {
    if ps != [] {
      SlashesAre(match ps[0] case Plain(_) => 0 case Flip(n) => 2 * n case Mark(n) => 2 * n + 1);
      assert (Written(ps) + rest)[0] == Text(ps[0])[0];
    }
  }

  lemma {:induction false} SkipBlank(blank: string, t: string, s: string)
    requires (forall c :: c in blank ==> IsSpace(c)) && (t == "" || !IsSpace(t[0])) && s == blank + t
    ensures SkipSpaces(s) == t
    decreases |blank|
  {
    if blank != "" {
      assert s[0] == blank[0] && blank[0] in blank && s[1..] == blank[1..] + t;
      SkipBlank(blank[1..], t, s[1..]);
    } else {
      assert s == t;
    }
  }
}
