/**
The command parser of `src/user/sh/main.c` as functions of the input and the cursor. The input
has no NUL; a cursor at its end sees the terminating one.
*/
module ShellParser {
  /** A string without a NUL in it. */
  type Text = s: seq<char> | forall i :: 0 <= i < |s| ==> s[i] != '\0'

  const MAX_ARGS: nat := 10

  predicate IsSpace(c: char) { c == ' ' || c == '\t' || c == '\r' || c == '\n' || c == '\U{000B}' }

  predicate IsSymbol(c: char) { c == '<' || c == '|' || c == '>' || c == '&' || c == ';' || c == '(' || c == ')' }

  /** A character of a word. */
  predicate Plain(c: char) { !IsSpace(c) && !IsSymbol(c) && c != '\0' }

  // ----- tokens

  function Skip(s: Text, i: nat): (r: nat)
    requires i <= |s|
    ensures i <= r <= |s| && (r < |s| ==> !IsSpace(s[r])) && (i < |s| && !IsSpace(s[i]) ==> r == i)
    decreases |s| - i
  {
    if i < |s| && IsSpace(s[i]) then Skip(s, i + 1) else i
  }

  function WordEnd(s: Text, i: nat): (r: nat)
    requires i <= |s|
    ensures i <= r <= |s| && (r < |s| ==> !Plain(s[r])) && forall k :: i <= k < r ==> Plain(s[k])
    decreases |s| - i
  {
    if i < |s| && Plain(s[i]) then WordEnd(s, i + 1) else i
  }

  /** The values of `gettoken`: 0, a symbol, '+' for an append, 'a' for a word. */
  datatype Kind = End | Symbol(c: char) | Append | Word

  /** A token, its text, and the cursor behind it. */
  datatype Token = Token(kind: Kind, q: nat, eq: nat, next: nat)

  function GetToken(s: Text, i: nat): (t: Token)
    requires i <= |s|
    ensures i <= t.q <= t.eq <= t.next <= |s| && (t.kind.End? <==> Skip(s, i) == |s|) && (!t.kind.End? ==> i < t.next)
    ensures t.kind.Word? ==> t.q < t.eq && forall k :: t.q <= k < t.eq ==> Plain(s[k])
    ensures t.kind.Word? && t.eq < |s| ==> !Plain(s[t.eq])
  {
    var q := Skip(s, i);
    if q == |s| then Token(End, q, q, q)
    else if s[q] == '>' && q + 1 < |s| && s[q + 1] == '>' then Token(Append, q, q + 2, Skip(s, q + 2))
    else if IsSymbol(s[q]) then Token(Symbol(s[q]), q, q + 1, Skip(s, q + 1))
    else Token(Word, q, WordEnd(s, q), Skip(s, WordEnd(s, q)))
  }

  /** `peek` is true. */
  predicate Sees(s: Text, i: nat, toks: set<char>)
    requires i <= |s|
  {
    Skip(s, i) < |s| && s[Skip(s, i)] in toks
  }

  // ----- commands

  /** The characters from `q` up to `eq`. */
  datatype Span = Span(q: nat, eq: nat)

  /** A redirection: from the file to descriptor 0, or from descriptor 1 to the file. */
  datatype Redir = Redir(file: Span, out: bool)

  datatype Cmd =
    | Exec(args: seq<Span>)
    | Redirect(cmd: Cmd, redir: Redir)
    | Pipe(left: Cmd, right: Cmd)
    | List(left: Cmd, right: Cmd)
    | Back(cmd: Cmd)

  /** The result of a parser: what it read and the new cursor, or a panic. */
  datatype Result<T> = Ok(value: T, pos: nat) | Panic

  /** `parseredirs`, which collects the redirections; the first one ends up innermost. */
  function ParseRedirs(s: Text, i: nat, reds: seq<Redir>): (r: Result<seq<Redir>>)
    requires i <= |s|
    ensures r.Ok? ==> i <= r.pos <= |s|
    decreases |s| - i
  {
    var j := Skip(s, i);
    if !Sees(s, i, {'<', '>'}) then Ok(reds, j)
    else
      var op := GetToken(s, j);
      var file := GetToken(s, op.next);
      if !file.kind.Word? then Panic
      else ParseRedirs(s, file.next, reds + [Redir(Span(file.q, file.eq), op.kind != Symbol('<'))])
  }

  function Wrap(c: Cmd, reds: seq<Redir>): Cmd {
    if reds == [] then c else Redirect(Wrap(c, reds[..|reds| - 1]), reds[|reds| - 1])
  }

  datatype Simple = Simple(args: seq<Span>, reds: seq<Redir>)

  /** The loop of `parseexec`. */
  function ParseArgs(s: Text, i: nat, c: Simple): (r: Result<Simple>)
    requires i <= |s|
    ensures r.Ok? ==> i <= r.pos <= |s|
    decreases |s| - i
  {
    if Sees(s, i, {'|', ')', '&', ';'}) then Ok(c, Skip(s, i))
    else
      var t := GetToken(s, Skip(s, i));
      if t.kind.End? then Ok(c, t.next)
      else if !t.kind.Word? || |c.args| + 1 >= MAX_ARGS then Panic
      else
        var r := ParseRedirs(s, t.next, c.reds);
        if r.Panic? then Panic else ParseArgs(s, r.pos, Simple(c.args + [Span(t.q, t.eq)], r.value))
  }

  /** `parseexec` */
  function ParseExec(s: Text, i: nat): (r: Result<Cmd>)
    requires i <= |s|
    ensures r.Ok? ==> i <= r.pos <= |s|
    decreases |s| - i, 1
  {
    if Sees(s, i, {'('}) then ParseBlock(s, Skip(s, i))
    else
      var reds := ParseRedirs(s, Skip(s, i), []);
      if reds.Panic? then Panic
      else
        var r := ParseArgs(s, reds.pos, Simple([], reds.value));
        if r.Panic? then Panic else Ok(Wrap(Exec(r.value.args), r.value.reds), r.pos)
  }

  /** `parseblock` */
  function ParseBlock(s: Text, i: nat): (r: Result<Cmd>)
    requires i < |s| && s[i] == '('
    ensures r.Ok? ==> i <= r.pos <= |s|
    decreases |s| - i, 0
  {
    var c := ParseLine(s, GetToken(s, i).next);
    if c.Panic? || !Sees(s, c.pos, {')'}) then Panic
    else
      var r := ParseRedirs(s, GetToken(s, c.pos).next, []);
      if r.Panic? then Panic else Ok(Wrap(c.value, r.value), r.pos)
  }

  /** `parsepipe` */
  function ParsePipe(s: Text, i: nat): (r: Result<Cmd>)
    requires i <= |s|
    ensures r.Ok? ==> i <= r.pos <= |s|
    decreases |s| - i, 2
  {
    var l := ParseExec(s, i);
    if l.Panic? then Panic
    else if !Sees(s, l.pos, {'|'}) then Ok(l.value, Skip(s, l.pos))
    else
      var r := ParsePipe(s, GetToken(s, l.pos).next);
      if r.Panic? then Panic else Ok(Pipe(l.value, r.value), r.pos)
  }

  /** The loop of `parseline`. */
  function ParseBacks(s: Text, i: nat, c: Cmd): (r: Result<Cmd>)
    requires i <= |s|
    ensures r.Ok? && i <= r.pos <= |s|
    decreases |s| - i
  {
    if Sees(s, i, {'&'}) then ParseBacks(s, GetToken(s, i).next, Back(c)) else Ok(c, Skip(s, i))
  }

  /** `parseline` */
  function ParseLine(s: Text, i: nat): (r: Result<Cmd>)
    requires i <= |s|
    ensures r.Ok? ==> i <= r.pos <= |s|
    decreases |s| - i, 3
  {
    var l := ParsePipe(s, i);
    if l.Panic? then Panic
    else
      var b := ParseBacks(s, l.pos, l.value);
      if !Sees(s, b.pos, {';'}) then Ok(b.value, Skip(s, b.pos))
      else
        var r := ParseLine(s, GetToken(s, b.pos).next);
        if r.Panic? then Panic else Ok(List(b.value, r.value), r.pos)
  }

  /** `parsecmd`, before it puts in the NULs. */
  function ParseCmd(s: Text): (r: Result<Cmd>) {
    var c := ParseLine(s, 0);
    if c.Panic? || Skip(s, c.pos) != |s| then Panic else Ok(c.value, |s|)
  }
}
