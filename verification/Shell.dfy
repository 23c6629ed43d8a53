/**
The code of the parser in `src/user/sh/main.c`: methods that move a cursor over the input, and
`nulterminate`, which writes into the input itself.
*/
module Shell {
  import opened Basics
  import opened ShellParser
  import Grammar = ShellGrammar

  // ----- what the spans of a parsed command are

  /** A whole word of the input. */
  predicate IsToken(s: Text, x: Span) {
    x.q < x.eq <= |s| && (forall k :: x.q <= k < x.eq ==> Plain(s[k])) && (x.eq < |s| ==> !Plain(s[x.eq]))
  }

  predicate Tokens(s: Text, xs: seq<Span>) {
    forall i :: 0 <= i < |xs| ==> IsToken(s, xs[i])
  }

  predicate Files(s: Text, reds: seq<Redir>) {
    forall i :: 0 <= i < |reds| ==> IsToken(s, reds[i].file)
  }

  predicate CmdOk(s: Text, c: Cmd) {
    match c
    case Exec(args) => Tokens(s, args)
    case Redirect(d, r) => IsToken(s, r.file) && CmdOk(s, d)
    case Pipe(l, r) => CmdOk(s, l) && CmdOk(s, r)
    case List(l, r) => CmdOk(s, l) && CmdOk(s, r)
    case Back(d) => CmdOk(s, d)
  }

  lemma {:induction false} RedirsOk(s: Text, i: nat, reds: seq<Redir>)
    requires i <= |s| && Files(s, reds)
    ensures var r := ParseRedirs(s, i, reds); r.Ok? ==> Files(s, r.value)
    decreases |s| - i
  {
    if Sees(s, i, {'<', '>'}) {
      var op := GetToken(s, Skip(s, i));
      var file := GetToken(s, op.next);
      if file.kind.Word? {
        RedirsOk(s, file.next, reds + [Redir(Span(file.q, file.eq), op.kind != Symbol('<'))]);
      }
    }
  }

  lemma {:induction false} WrapOk(s: Text, c: Cmd, reds: seq<Redir>)
    requires CmdOk(s, c) && Files(s, reds)
    ensures CmdOk(s, Wrap(c, reds))
    decreases |reds|
  {
    if reds != [] { WrapOk(s, c, reds[..|reds| - 1]); }
  }

  lemma {:induction false} ArgsOk(s: Text, i: nat, c: Simple)
    requires i <= |s| && Tokens(s, c.args) && Files(s, c.reds)
    ensures var r := ParseArgs(s, i, c); r.Ok? ==> Tokens(s, r.value.args) && Files(s, r.value.reds)
    decreases |s| - i
  {
    if !Sees(s, i, {'|', ')', '&', ';'}) {
      var t := GetToken(s, Skip(s, i));
      if t.kind.Word? {
        RedirsOk(s, t.next, c.reds);
        var r := ParseRedirs(s, t.next, c.reds);
        if r.Ok? && |c.args| + 1 < MAX_ARGS { ArgsOk(s, r.pos, Simple(c.args + [Span(t.q, t.eq)], r.value)); }
      }
    }
  }

  lemma {:induction false} ExecOk(s: Text, i: nat)
    requires i <= |s|
    ensures var r := ParseExec(s, i); r.Ok? ==> CmdOk(s, r.value)
    decreases |s| - i, 1
  {
    if Sees(s, i, {'('}) {
      BlockOk(s, Skip(s, i));
    } else {
      RedirsOk(s, Skip(s, i), []);
      var reds := ParseRedirs(s, Skip(s, i), []);
      if reds.Ok? {
        ArgsOk(s, reds.pos, Simple([], reds.value));
        var r := ParseArgs(s, reds.pos, Simple([], reds.value));
        if r.Ok? { WrapOk(s, Exec(r.value.args), r.value.reds); }
      }
    }
  }

  lemma {:induction false} BlockOk(s: Text, i: nat)
    requires i < |s| && s[i] == '('
    ensures var r := ParseBlock(s, i); r.Ok? ==> CmdOk(s, r.value)
    decreases |s| - i, 0
  {
    LineOk(s, GetToken(s, i).next);
    var c := ParseLine(s, GetToken(s, i).next);
    if c.Ok? && Sees(s, c.pos, {')'}) {
      RedirsOk(s, GetToken(s, c.pos).next, []);
      var r := ParseRedirs(s, GetToken(s, c.pos).next, []);
      if r.Ok? { WrapOk(s, c.value, r.value); }
    }
  }

  lemma {:induction false} PipeOk(s: Text, i: nat)
    requires i <= |s|
    ensures var r := ParsePipe(s, i); r.Ok? ==> CmdOk(s, r.value)
    decreases |s| - i, 2
  {
    ExecOk(s, i);
    var l := ParseExec(s, i);
    if l.Ok? && Sees(s, l.pos, {'|'}) { PipeOk(s, GetToken(s, l.pos).next); }
  }

  lemma {:induction false} BacksOk(s: Text, i: nat, c: Cmd)
    requires i <= |s| && CmdOk(s, c)
    ensures CmdOk(s, ParseBacks(s, i, c).value)
    decreases |s| - i
  {
    if Sees(s, i, {'&'}) { BacksOk(s, GetToken(s, i).next, Back(c)); }
  }

  /** Every span of a parsed command is a whole word of the input. */
  lemma {:induction false} LineOk(s: Text, i: nat)
    requires i <= |s|
    ensures var r := ParseLine(s, i); r.Ok? ==> CmdOk(s, r.value)
    decreases |s| - i, 3
  {
    PipeOk(s, i);
    var l := ParsePipe(s, i);
    if l.Ok? {
      BacksOk(s, l.pos, l.value);
      var b := ParseBacks(s, l.pos, l.value);
      if Sees(s, b.pos, {';'}) { LineOk(s, GetToken(s, b.pos).next); }
    }
  }

  // ----- nulterminate

  /** The ends of the words of a command. */
  function Ends(c: Cmd): set<nat> {
    match c
    case Exec(args) => set x | x in args :: x.eq
    case Redirect(d, r) => Ends(d) + {r.file.eq}
    case Pipe(l, r) => Ends(l) + Ends(r)
    case List(l, r) => Ends(l) + Ends(r)
    case Back(d) => Ends(d)
  }

  /** The words of a command. */
  function Spans(c: Cmd): set<Span> {
    match c
    case Exec(args) => set x | x in args
    case Redirect(d, r) => Spans(d) + {r.file}
    case Pipe(l, r) => Spans(l) + Spans(r)
    case List(l, r) => Spans(l) + Spans(r)
    case Back(d) => Spans(d)
  }

  /** The buffer with a NUL at each of these places. */
  ghost predicate Cut(b: seq<char>, b': seq<char>, at: set<nat>) {
    |b'| == |b| && forall k :: 0 <= k < |b| ==> b'[k] == if k in at then '\0' else b[k]
  }

  lemma {:induction false} EndsOk(s: Text, c: Cmd)
    requires CmdOk(s, c)
    ensures forall k :: k in Ends(c) ==> k <= |s| && (k < |s| ==> !Plain(s[k]))
    ensures forall x :: x in Spans(c) ==> IsToken(s, x) && x.eq in Ends(c)
  {
    match c
    case Exec(args) =>
    case Redirect(d, r) => EndsOk(s, d);
    case Pipe(l, r) => EndsOk(s, l); EndsOk(s, r);
    case List(l, r) => EndsOk(s, l); EndsOk(s, r);
    case Back(d) => EndsOk(s, d);
  }

  /** The C string at `q`: up to the next NUL. */
  function CString(b: seq<char>, q: nat): seq<char>
    requires q <= |b|
    decreases |b| - q
  {
    if q == |b| || b[q] == '\0' then [] else [b[q]] + CString(b, q + 1)
  }

  lemma {:induction false} CStringIs(b: seq<char>, q: nat, e: nat)
    requires q <= e < |b| && b[e] == '\0' && forall k :: q <= k < e ==> b[k] != '\0'
    ensures CString(b, q) == b[q..e]
    decreases e - q
  {
    if q < e {
      CStringIs(b, q + 1, e);
      assert b[q..e] == [b[q]] + b[q + 1..e];
    }
  }

  /** For every input that `parsecmd` accepts, after `nulterminate` the C string of every argument and
      every file name is exactly its token. */
  lemma {:induction false} WordsAreTokens(s: Text, b: seq<char>, x: Span)
    requires ParseCmd(s).Ok? && Cut(s + ['\0'], b, Ends(ParseCmd(s).value)) && x in Spans(ParseCmd(s).value)
    ensures IsToken(s, x) && CString(b, x.q) == s[x.q..x.eq]
  {
    var c := ParseCmd(s).value;
    LineOk(s, 0);
    EndsOk(s, c);
    CStringIs(b, x.q, x.eq);
    assert b[x.q..x.eq] == s[x.q..x.eq];
  }

  /** `nulterminate` */
  method NulTerminate(b: array<char>, c: Cmd)
    requires forall k :: k in Ends(c) ==> k < b.Length
    modifies b
    ensures Cut(old(b[..]), b[..], Ends(c))
    decreases c, 1
  {
    match c
    case Exec(args) =>
      NulTerminateArgs(b, args);
    case Redirect(d, r) =>
      assert Ends(c) == Ends(d) + {r.file.eq};
      NulTerminate(b, d);
      b[r.file.eq] := '\0';
    case Pipe(l, r) =>
      assert Ends(c) == Ends(l) + Ends(r);
      NulTerminate(b, l);
      NulTerminate(b, r);
    case List(l, r) =>
      assert Ends(c) == Ends(l) + Ends(r);
      NulTerminate(b, l);
      NulTerminate(b, r);
    case Back(d) =>
      assert Ends(c) == Ends(d);
      NulTerminate(b, d);
  }

  /** The loop of `nulterminate`. */
  method NulTerminateArgs(b: array<char>, args: seq<Span>)
    requires forall k :: k in Ends(Exec(args)) ==> k < b.Length
    modifies b
    ensures Cut(old(b[..]), b[..], Ends(Exec(args)))
  {
    ghost var done: set<nat> := {};
    var i := 0;
    while i < |args|
      invariant i <= |args| && Cut(old(b[..]), b[..], done) && done <= Ends(Exec(args))
      invariant forall j :: 0 <= j < i ==> args[j].eq in done
    {
      assert args[i] in args;
      assert args[i].eq in Ends(Exec(args));
      b[args[i].eq] := '\0';
      done := done + {args[i].eq};
      i := i + 1;
    }
    assert done == Ends(Exec(args));
  }

  // ----- the parsers

  /** `*ps` and the input it moves over. */
  class Parser {
    const s: Text
    var pos: nat

    constructor (s: Text)
      ensures this.s == s && pos == 0
    {
      this.s := s;
      pos := 0;
    }

    /** The loop over whitespace. */
    method SkipSpaces()
      requires pos <= |s|
      modifies this
      ensures pos == Skip(s, old(pos))
    {
      while pos < |s| && IsSpace(s[pos])
        invariant pos <= |s| && Skip(s, pos) == Skip(s, old(pos))
      {
        pos := pos + 1;
      }
    }

    /** `peek` */
    method Peek(toks: set<char>) returns (b: bool)
      requires pos <= |s|
      modifies this
      ensures pos == Skip(s, old(pos)) && b == Sees(s, old(pos), toks) == Sees(s, pos, toks)
    {
      SkipSpaces();
      b := pos < |s| && s[pos] in toks;
    }

    /** `gettoken` */
    method NextToken() returns (t: Token)
      requires pos <= |s|
      modifies this
      ensures t == GetToken(s, old(pos)) && pos == t.next
    {
      SkipSpaces();
      var q := pos;
      var kind := End;
      if pos < |s| {
        if s[pos] == '>' {
          pos := pos + 1;
          kind := Symbol('>');
          if pos < |s| && s[pos] == '>' {
            kind := Append;
            pos := pos + 1;
          }
        } else if IsSymbol(s[pos]) {
          kind := Symbol(s[pos]);
          pos := pos + 1;
        } else {
          kind := Word;
          while pos < |s| && Plain(s[pos])
            invariant q <= pos <= |s| && WordEnd(s, pos) == WordEnd(s, q)
          {
            pos := pos + 1;
          }
        }
      }
      var eq := pos;
      SkipSpaces();
      t := Token(kind, q, eq, pos);
    }

    /** `parseredirs` */
    method Redirs(reds: seq<Redir>) returns (r: Option<seq<Redir>>)
      requires pos <= |s|
      modifies this
      ensures pos <= |s| && Agrees(ParseRedirs(s, old(pos), reds), r, pos)
    {
      var all := reds;
      var more := Peek({'<', '>'});
      while more
        invariant pos <= |s| && more == Sees(s, pos, {'<', '>'}) && Skip(s, pos) == pos
        invariant ParseRedirs(s, pos, all) == ParseRedirs(s, old(pos), reds)
        decreases |s| - pos
      {
        var op := NextToken();
        var file := NextToken();
        if !file.kind.Word? {
          return None;
        }
        all := all + [Redir(Span(file.q, file.eq), op.kind != Symbol('<'))];
        more := Peek({'<', '>'});
      }
      r := Some(all);
    }

    /** The loop of `parseexec`. */
    method Args(reds: seq<Redir>) returns (r: Option<Simple>)
      requires pos <= |s|
      modifies this
      ensures pos <= |s| && Agrees(ParseArgs(s, old(pos), Simple([], reds)), r, pos)
    {
      var c := Simple([], reds);
      while true
        invariant pos <= |s| && ParseArgs(s, pos, c) == ParseArgs(s, old(pos), Simple([], reds))
        decreases |s| - pos
      {
        var stop := Peek({'|', ')', '&', ';'});
        if stop {
          return Some(c);
        }
        var t := NextToken();
        if t.kind.End? {
          return Some(c);
        }
        if !t.kind.Word? || |c.args| + 1 >= MAX_ARGS {
          return None;
        }
        var reds' := Redirs(c.reds);
        if reds'.None? {
          return None;
        }
        c := Simple(c.args + [Span(t.q, t.eq)], reds'.value);
      }
    }

    /** `parseexec` */
    method Exec() returns (r: Option<Cmd>)
      requires pos <= |s|
      modifies this
      ensures pos <= |s| && Agrees(ParseExec(s, old(pos)), r, pos)
      ensures r.Some? ==> exists u :: ReadsUnit(s, old(pos), u, pos) && r.value == Grammar.UnitCmd(u)
      decreases |s| - pos, 1
    {
      if ParseExec(s, pos).Ok? {
        ghost var u := Grammar.UnitSound(s, pos);
        assert ReadsUnit(s, pos, u, ParseExec(s, pos).pos);
      }
      var paren := Peek({'('});
      if paren {
        r := Block();
        return;
      }
      var reds := Redirs([]);
      if reds.None? {
        return None;
      }
      var c := Args(reds.value);
      r := if c.None? then None else Some(Wrap(ShellParser.Exec(c.value.args), c.value.reds));
    }

    /** `parseblock` */
    method Block() returns (r: Option<Cmd>)
      requires pos < |s| && s[pos] == '('
      modifies this
      ensures pos <= |s| && Agrees(ParseBlock(s, old(pos)), r, pos)
      decreases |s| - pos, 0
    {
      hide ParseLine, ParseRedirs, WordEnd, Wrap;
      var open := NextToken();
      var c := Line();
      if c.None? {
        return None;
      }
      var close := Peek({')'});
      if !close {
        return None;
      }
      var paren := NextToken();
      var reds := Redirs([]);
      r := if reds.None? then None else Some(Wrap(c.value, reds.value));
    }

    /** `parsepipe` */
    method PipeCmd() returns (r: Option<Cmd>)
      requires pos <= |s|
      modifies this
      ensures pos <= |s| && Agrees(ParsePipe(s, old(pos)), r, pos)
      decreases |s| - pos, 2
    {
      r := Exec();
      if r.None? {
        return;
      }
      var more := Peek({'|'});
      if more {
        var bar := NextToken();
        var right := PipeCmd();
        r := if right.None? then None else Some(Pipe(r.value, right.value));
      }
    }

    /** `parseline` */
    method Line() returns (r: Option<Cmd>)
      requires pos <= |s|
      modifies this
      ensures pos <= |s| && Agrees(ParseLine(s, old(pos)), r, pos)
      decreases |s| - pos, 3
    {
      hide ParsePipe, ParseBacks, WordEnd;
      var c := PipeCmd();
      if c.None? {
        return None;
      }
      var cmd := Backs(c.value);
      var more := Peek({';'});
      if !more {
        return Some(cmd);
      }
      var semicolon := NextToken();
      var right := Line();
      r := if right.None? then None else Some(List(cmd, right.value));
    }

    /** The loop of `parseline`. */
    method Backs(c: Cmd) returns (cmd: Cmd)
      requires pos <= |s|
      modifies this
      ensures pos <= |s| && ParseBacks(s, old(pos), c) == Ok(cmd, pos)
    {
      cmd := c;
      var back := Peek({'&'});
      while back
        invariant pos <= |s| && back == Sees(s, pos, {'&'}) && Skip(s, pos) == pos
        invariant ParseBacks(s, pos, cmd) == ParseBacks(s, old(pos), c)
        decreases |s| - pos
      {
        var ampersand := NextToken();
        cmd := Back(cmd);
        back := Peek({'&'});
      }
    }
  }

  /** The tokens from `i` up to `j` are those of the unit. */
  ghost predicate ReadsUnit(s: Text, i: nat, u: Grammar.Unit, j: nat)
    requires i <= |s| && j <= |s|
  {
    Grammar.UnitOk(u) && Grammar.Toks(s, i) == Grammar.UnitToks(u) + Grammar.Toks(s, j)
  }

  /** `parsecmd` on the input in `b`, which ends in a NUL: the command, with NULs after all of its
      words, or a panic. */
  method ParseCommand(b: array<char>, s: Text) returns (r: Option<Cmd>)
    requires b[..] == s + ['\0']
    modifies b
    ensures r.None? <==> ParseCmd(s).Panic?
    ensures r.Some? ==> r == Some(ParseCmd(s).value) && Cut(s + ['\0'], b[..], Ends(r.value))
    ensures r.Some? <==> exists l :: Grammar.Reads(s, l)
    ensures forall l :: Grammar.Reads(s, l) ==> r == Some(Grammar.LineCmd(l))
  {
    Grammar.Accepts(s);
    forall l | Grammar.Reads(s, l) ensures ParseCmd(s).Ok? && ParseCmd(s).value == Grammar.LineCmd(l) {
      Grammar.Understands(s, l);
    }
    var p := new Parser(s);
    r := p.Line();
    if r.None? {
      return;
    }
    var _ := p.Peek({});
    if p.pos != |s| {
      return None;
    }
    LineOk(s, 0);
    EndsOk(s, r.value);
    NulTerminate(b, r.value);
  }

  /** The result of a parser as a function, and as code that moves the cursor. */
  ghost predicate Agrees<T>(r: Result<T>, x: Option<T>, pos: nat) {
    match r
    case Panic => x.None?
    case Ok(v, p) => x == Some(v) && pos == p
  }
}
