/** The Windows launcher's command lines: arguments are quoted where needed and joined; the
    program started splits the line again, in place.

    A C string is a sequence without the null character. */
module Launcher {
  import opened Locks

  predicate IsSpace(c: char) { c == ' ' || '\t' <= c <= '\r' }

  predicate IsCString(s: string) { '\0' !in s }

  function Slashes(k: nat): string { if k == 0 then "" else "\\" + Slashes(k - 1) }

  lemma {:induction false} SlashesAre(k: nat)
    ensures |Slashes(k)| == k && forall i :: 0 <= i < k ==> Slashes(k)[i] == '\\'
  {
    if k > 0 {
      SlashesAre(k - 1);
    }
  }

  lemma {:induction false} SlashesAdd(a: nat, b: nat)
    ensures Slashes(a) + Slashes(b) == Slashes(a + b)
  {
    if a > 0 {
      SlashesAdd(a - 1, b);
      assert Slashes(a) + Slashes(b) == "\\" + (Slashes(a - 1) + Slashes(b));
    } else {
      assert Slashes(0) + Slashes(b) == Slashes(b);
    }
  }

  // Quoting

  predicate NeedsQuotes(s: string) { exists c :: c in s && (IsSpace(c) || c == '\'' || c == '"') }

  /** A quote ends the quoted part, is written behind a backslash, and starts another quoted
      part; the w backslashes right before it are doubled. */
  function Body(s: string, w: nat): string {
    if s == "" then ""
    else if s[0] == '"' then Slashes(w) + "\"\\\"\"" + Body(s[1..], 0)
    else if s[0] == '\\' then "\\" + Body(s[1..], w + 1)
    else [s[0]] + Body(s[1..], 0)
  }

  function Protected(s: string): string {
    if NeedsQuotes(s) then "\"" + Body(s, 0) + "\"" else s
  }

  // Splitting

  /** Backslashes at the start. */
  function Run(s: string): (k: nat)
    ensures k <= |s| && (k < |s| ==> s[k] != '\\')
    ensures forall i :: 0 <= i < k ==> s[i] == '\\'
  {
    if s != "" && s[0] == '\\' then 1 + Run(s[1..]) else 0
  }

  /** An argument and what is left of the line. */
  datatype Token = Token(text: string, rest: string)

  function Prefix(p: string, t: Token): Token { Token(p + t.text, t.rest) }

  /** Characters that a run of k backslashes before a quote stands for. */
  function Escaped(k: nat): string { if k % 2 == 0 then Slashes(k / 2) else Slashes(k / 2) + "\"" }

  /** Read one argument, inside quotes or not. */
  function Scan(s: string, quoted: bool): Token
    decreases |s|
  {
    if s == "" || (IsSpace(s[0]) && !quoted) then Token("", s)
    else if s[0] == '"' then Scan(s[1..], !quoted)
    else if s[0] == '\\' && Run(s) < |s| && s[Run(s)] == '"' then
      var k := Run(s);
      Prefix(Escaped(k), Scan(s[if k % 2 == 0 then k else k + 1..], quoted))
    else Prefix([s[0]], Scan(s[1..], quoted))
  }

  function SkipSpaces(s: string): (r: string)
    ensures |r| <= |s|
  {
    if s != "" && IsSpace(s[0]) then SkipSpaces(s[1..]) else s
  }

  lemma {:induction false} ScanShrinks(s: string, quoted: bool)
    ensures |Scan(s, quoted).rest| <= |s|
    decreases |s|
  {
    if s == "" || (IsSpace(s[0]) && !quoted) {
    } else if s[0] == '"' {
      ScanShrinks(s[1..], !quoted);
    } else if s[0] == '\\' && Run(s) < |s| && s[Run(s)] == '"' {
      ScanShrinks(s[if Run(s) % 2 == 0 then Run(s) else Run(s) + 1..], quoted);
    } else {
      ScanShrinks(s[1..], quoted);
    }
  }

  /** The first argument of a line and the rest of the line after it and one space. */
  function First(s: string): (t: Token)
    requires s != ""
    ensures |t.rest| < |s|
  {
    var t := Scan(SkipSpaces(s), false);
    ScanShrinks(SkipSpaces(s), false);
    FirstShrinks(s);
    if t.rest == "" then t else Token(t.text, t.rest[1..])
  }

  lemma FirstShrinks(s: string)
    requires s != ""
    ensures var t := Scan(SkipSpaces(s), false); |if t.rest == "" then t.rest else t.rest[1..]| < |s|
  {
    ScanShrinks(SkipSpaces(s), false);
  }

  /** The arguments of a line.  Empty ones are dropped. */
  function Arguments(s: string): seq<string>
    decreases |s|
  {
    if s == "" then [] else
      var t := First(s);
      (if t.text == "" then [] else [t.text]) + Arguments(t.rest)
  }

  // Joining

  /** Append arguments to a line; the first one that is not empty has no space before it. */
  function JoinOnto(line: string, args: seq<string>): string
    decreases |args|
  {
    if args == [] then line
    else JoinOnto((if line == "" then "" else line + " ") + args[0], args[1..])
  }

  function ProtectedAll(args: seq<string>): (r: seq<string>)
    ensures |r| == |args| && forall i :: 0 <= i < |r| ==> r[i] == Protected(args[i])
  {
    if args == [] then [] else [Protected(args[0])] + ProtectedAll(args[1..])
  }

  /** The command line for a list of arguments. */
  function CommandLine(args: seq<string>): string { JoinOnto("", ProtectedAll(args)) }

  predicate EndsInSlash(s: string) { s != "" && s[|s| - 1] == '\\' }

  /** Arguments that come back as they were. */
  predicate Survives(s: string) { s != "" && !(NeedsQuotes(s) && EndsInSlash(s)) }

  // The same as closed relations

  ghost predicate Reads(s: string, quoted: bool, t: Token) {
    forall k: nat :: Open(k) ==> Scan(s, quoted) == t
  }

  ghost predicate Begins(s: string, t: Token) {
    forall k: nat :: Open(k) ==> s != "" && First(s) == t
  }

  ghost predicate Splits(s: string, args: seq<string>) {
    forall k: nat :: Open(k) ==> Arguments(s) == args
  }
}
