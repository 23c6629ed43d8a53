/**
The language of the shell of `src/user/sh/main.c`, as a grammar over tokens with the command each
sentence stands for, and the proof that the parser accepts exactly this language and builds
exactly these commands.
*/
module ShellGrammar {
  import opened ShellParser

  // ----- the tokens of an input

  datatype Tok = Sym(c: char) | Twice | Txt(x: Span)

  function TokOf(t: Token): Tok
    requires !t.kind.End?
  {
    match t.kind
    case Symbol(c) => Sym(c)
    case Append => Twice
    case Word => Txt(Span(t.q, t.eq))
  }

  /** The tokens from `i` on. */
  function Toks(s: Text, i: nat): seq<Tok>
    requires i <= |s|
    decreases |s| - i
  {
    var t := GetToken(s, i);
    if t.kind.End? then [] else [TokOf(t)] + Toks(s, t.next)
  }

  function TextOf(s: Text, t: Tok): seq<char> {
    match t
    case Sym(c) => [c]
    case Twice => ">>"
    case Txt(x) => if x.q <= x.eq <= |s| then s[x.q..x.eq] else []
  }

  function Texts(s: Text, ts: seq<Tok>): seq<char> {
    if ts == [] then [] else TextOf(s, ts[0]) + Texts(s, ts[1..])
  }

  function Unspaced(x: seq<char>): seq<char> {
    if x == [] then [] else (if IsSpace(x[0]) then [] else [x[0]]) + Unspaced(x[1..])
  }

  lemma {:induction false} UnspacedSkip(s: Text, i: nat)
    requires i <= |s|
    ensures Unspaced(s[i..]) == Unspaced(s[Skip(s, i)..])
    decreases |s| - i
  {
    if i < |s| && IsSpace(s[i]) {
      assert s[i..][1..] == s[i + 1..];
      UnspacedSkip(s, i + 1);
    }
  }

  lemma {:induction false} UnspacedOver(s: Text, i: nat, j: nat)
    requires i <= j <= |s| && forall k :: i <= k < j ==> !IsSpace(s[k])
    ensures Unspaced(s[i..]) == s[i..j] + Unspaced(s[j..])
    decreases j - i
  {
    if i < j {
      assert s[i..][1..] == s[i + 1..] && s[i..j] == [s[i]] + s[i + 1..j];
      UnspacedOver(s, i + 1, j);
    } else {
      assert s[i..j] == [];
    }
  }

  lemma {:induction false} TokenText(s: Text, i: nat)
    requires i <= |s|
    ensures var t := GetToken(s, i); t.q == Skip(s, i) && t.next == Skip(s, t.eq)
    ensures var t := GetToken(s, i); if t.kind.End? then t.q == |s| else TextOf(s, TokOf(t)) == s[t.q..t.eq]
    ensures var t := GetToken(s, i); forall k :: t.q <= k < t.eq ==> !IsSpace(s[k])
  {
    var t := GetToken(s, i);
    if t.kind.Symbol? {
      assert s[t.q..t.eq] == [s[t.q]];
    } else if t.kind.Append? {
      assert s[t.q..t.eq] == [s[t.q], s[t.q + 1]];
    }
  }

  /** The tokens are the whole input but for the white space. */
  lemma {:induction false} TokensCover(s: Text, i: nat)
    requires i <= |s|
    ensures Texts(s, Toks(s, i)) == Unspaced(s[i..])
    decreases |s| - i
  {
    hide GetToken, Skip, TextOf, IsSpace;
    var t := GetToken(s, i);
    TokenText(s, i);
    UnspacedSkip(s, i);
    if t.kind.End? {
      assert s[|s|..] == [];
    } else {
      UnspacedOver(s, t.q, t.eq);
      UnspacedSkip(s, t.eq);
      TokensCover(s, t.next);
      assert Toks(s, i)[0] == TokOf(t) && Toks(s, i)[1..] == Toks(s, t.next);
    }
  }

  // ----- the grammar

  datatype Op = In | Out | OutAtEnd

  /** `< file`, `> file` or `>> file` */
  datatype Rd = Rd(op: Op, file: Span)

  /** A word and the redirections behind it. */
  datatype Part = Part(word: Span, reds: seq<Rd>)

  /** Redirections and words in any order, or a line in parentheses with redirections behind it. */
  datatype Unit = Command(reds: seq<Rd>, parts: seq<Part>) | Paren(line: Line, reds: seq<Rd>)

  datatype Pipeline = One(unit: Unit) | Bar(unit: Unit, rest: Pipeline)

  /** A pipeline, some number of `&`, and perhaps `;` and a line. */
  datatype Line = Last(pipe: Pipeline, backs: nat) | Then(pipe: Pipeline, backs: nat, rest: Line)

  /** No command has more than nine words. */
  predicate UnitOk(u: Unit) {
    match u
    case Command(_, parts) => |parts| <= 9
    case Paren(line, _) => LineOk(line)
  }

  predicate PipeOk(p: Pipeline) {
    UnitOk(p.unit) && (p.Bar? ==> PipeOk(p.rest))
  }

  predicate LineOk(l: Line) {
    PipeOk(l.pipe) && (l.Then? ==> LineOk(l.rest))
  }

  // ----- the tokens of a sentence

  function OpTok(op: Op): Tok {
    match op
    case In => Sym('<')
    case Out => Sym('>')
    case OutAtEnd => Twice
  }

  function RdToks(rs: seq<Rd>): seq<Tok> {
    if rs == [] then [] else [OpTok(rs[0].op), Txt(rs[0].file)] + RdToks(rs[1..])
  }

  function PartToks(ps: seq<Part>): seq<Tok> {
    if ps == [] then [] else [Txt(ps[0].word)] + RdToks(ps[0].reds) + PartToks(ps[1..])
  }

  function UnitToks(u: Unit): seq<Tok> {
    match u
    case Command(rs, ps) => RdToks(rs) + PartToks(ps)
    case Paren(l, rs) => [Sym('(')] + LineToks(l) + [Sym(')')] + RdToks(rs)
  }

  function PipeToks(p: Pipeline): seq<Tok> {
    match p
    case One(u) => UnitToks(u)
    case Bar(u, r) => UnitToks(u) + [Sym('|')] + PipeToks(r)
  }

  function BackToks(n: nat): seq<Tok> {
    if n == 0 then [] else [Sym('&')] + BackToks(n - 1)
  }

  function LineToks(l: Line): seq<Tok> {
    match l
    case Last(p, n) => PipeToks(p) + BackToks(n)
    case Then(p, n, r) => PipeToks(p) + BackToks(n) + [Sym(';')] + LineToks(r)
  }

  // ----- the command of a sentence

  /** Redirections around a command, the first one innermost. Only `<` reads. */
  function Around(c: Cmd, rs: seq<Rd>): Cmd
    decreases |rs|
  {
    if rs == [] then c else Around(Redirect(c, Redir(rs[0].file, rs[0].op != In)), rs[1..])
  }

  function WordsOf(ps: seq<Part>): seq<Span> {
    if ps == [] then [] else [ps[0].word] + WordsOf(ps[1..])
  }

  function RedsOf(ps: seq<Part>): seq<Rd> {
    if ps == [] then [] else ps[0].reds + RedsOf(ps[1..])
  }

  function UnitCmd(u: Unit): Cmd {
    match u
    case Command(rs, ps) => Around(Exec(WordsOf(ps)), rs + RedsOf(ps))
    case Paren(l, rs) => Around(LineCmd(l), rs)
  }

  function PipeCmd(p: Pipeline): Cmd {
    match p
    case One(u) => UnitCmd(u)
    case Bar(u, r) => Pipe(UnitCmd(u), PipeCmd(r))
  }

  function InBack(c: Cmd, n: nat): Cmd {
    if n == 0 then c else Back(InBack(c, n - 1))
  }

  function LineCmd(l: Line): Cmd {
    match l
    case Last(p, n) => InBack(PipeCmd(p), n)
    case Then(p, n, r) => List(InBack(PipeCmd(p), n), LineCmd(r))
  }

  // ----- the parser sees tokens

  /** What `peek` compares is the first character of a token. */
  predicate Starts(ts: seq<Tok>, toks: set<char>) {
    ts != [] && match ts[0] case Sym(c) => c in toks case Twice => '>' in toks case Txt(_) => false
  }

  lemma {:induction false} Seen(s: Text, i: nat, toks: set<char>)
    requires i <= |s| && forall c :: c in toks ==> IsSymbol(c)
    ensures Sees(s, i, toks) == Starts(Toks(s, i), toks)
    ensures GetToken(s, Skip(s, i)) == GetToken(s, i) && Toks(s, Skip(s, i)) == Toks(s, i)
  {
    assert Toks(s, i) == if GetToken(s, i).kind.End?
      then [] else [TokOf(GetToken(s, i))] + Toks(s, GetToken(s, i).next);
  }

  /** Reading a token. */
  lemma {:induction false} Taken(s: Text, i: nat)
    requires i <= |s|
    ensures var t := GetToken(s, i);
            Toks(s, i) == if t.kind.End? then [] else [TokOf(t)] + Toks(s, t.next)
  {
  }

  /** Reading a token that is known. */
  lemma {:induction false} TakenIs(s: Text, i: nat, x: Tok, rest: seq<Tok>)
    requires i <= |s| && Toks(s, i) == [x] + rest
    ensures var t := GetToken(s, i); !t.kind.End? && TokOf(t) == x && Toks(s, t.next) == rest
  {
    var t := GetToken(s, i);
    assert Toks(s, i)[0] == x && Toks(s, i)[1..] == rest;
    assert Toks(s, i)[0] == TokOf(t) && Toks(s, i)[1..] == Toks(s, t.next);
  }

  // ----- redirections

  function Redirs(rs: seq<Rd>): seq<Redir> {
    if rs == [] then [] else [Redir(rs[0].file, rs[0].op != In)] + Redirs(rs[1..])
  }

  lemma {:induction false} WrapFirst(c: Cmd, r: Redir, reds: seq<Redir>)
    ensures Wrap(c, [r] + reds) == Wrap(Redirect(c, r), reds)
    decreases |reds|
  {
    var all := [r] + reds;
    if reds == [] {
      assert all[..0] == [];
    } else {
      assert all[..|all| - 1] == [r] + reds[..|reds| - 1];
      WrapFirst(c, r, reds[..|reds| - 1]);
    }
  }

  lemma {:induction false} WrapAround(c: Cmd, rs: seq<Rd>)
    ensures Wrap(c, Redirs(rs)) == Around(c, rs)
    decreases |rs|
  {
    if rs != [] {
      var r := Redir(rs[0].file, rs[0].op != In);
      WrapFirst(c, r, Redirs(rs[1..]));
      WrapAround(Redirect(c, r), rs[1..]);
    }
  }

  lemma {:induction false} RedirsJoin(rs: seq<Rd>, more: seq<Rd>)
    ensures Redirs(rs + more) == Redirs(rs) + Redirs(more)
    decreases |rs|
  {
    if rs == [] {
      assert rs + more == more;
    } else {
      assert (rs + more)[1..] == rs[1..] + more;
      RedirsJoin(rs[1..], more);
    }
  }

  lemma {:induction false} Assoc<T>(a: seq<T>, b: seq<T>, c: seq<T>)
    ensures a + b + c == a + (b + c)
  {
  }

  lemma {:induction false} RdCons(r: Rd, more: seq<Rd>)
    ensures RdToks([r] + more) == [OpTok(r.op), Txt(r.file)] + RdToks(more)
    ensures Redirs([r] + more) == [Redir(r.file, r.op != In)] + Redirs(more)
  {
    assert ([r] + more)[1..] == more;
  }

  lemma {:induction false} PartCons(p: Part, more: seq<Part>)
    ensures PartToks([p] + more) == [Txt(p.word)] + (RdToks(p.reds) + PartToks(more))
    ensures WordsOf([p] + more) == [p.word] + WordsOf(more)
    ensures Redirs(RedsOf([p] + more)) == Redirs(p.reds) + Redirs(RedsOf(more))
  {
    assert ([p] + more)[1..] == more;
    RedirsJoin(p.reds, RedsOf(more));
  }

  lemma {:induction false} NoRedir(s: Text, i: nat, reds: seq<Redir>)
    requires i <= |s| && !Starts(Toks(s, i), {'<', '>'})
    ensures ParseRedirs(s, i, reds).Ok? && ParseRedirs(s, i, reds).value == reds
    ensures Toks(s, ParseRedirs(s, i, reds).pos) == Toks(s, i)
  {
    Seen(s, i, {'<', '>'});
  }

  lemma {:induction false} OneRedir(s: Text, i: nat, reds: seq<Redir>) returns (r: Rd, j: nat)
    requires i <= |s| && Starts(Toks(s, i), {'<', '>'}) && ParseRedirs(s, i, reds).Ok?
    ensures i < j <= |s| && Toks(s, i) == [OpTok(r.op), Txt(r.file)] + Toks(s, j)
    ensures ParseRedirs(s, i, reds) == ParseRedirs(s, j, reds + [Redir(r.file, r.op != In)])
  {
    hide GetToken, Skip, Sees, Toks;
    Seen(s, i, {'<', '>'});
    var op := GetToken(s, i);
    var file := GetToken(s, op.next);
    Taken(s, i);
    Taken(s, op.next);
    r := Rd(match TokOf(op) case Sym(c) => (if c == '<' then In else Out) case Twice => OutAtEnd case Txt(_) => In,
            Span(file.q, file.eq));
    j := file.next;
  }

  /** Every list of redirections the parser reads is one of the grammar. */
  lemma {:induction false} RedirsSound(s: Text, i: nat, reds: seq<Redir>) returns (rs: seq<Rd>)
    requires i <= |s| && ParseRedirs(s, i, reds).Ok?
    ensures var r := ParseRedirs(s, i, reds); Toks(s, i) == RdToks(rs) + Toks(s, r.pos) && r.value == reds + Redirs(rs)
    decreases |s| - i
  {
    hide Toks, ParseRedirs, Starts;
    if Starts(Toks(s, i), {'<', '>'}) {
      var r, j := OneRedir(s, i, reds);
      var x := Redir(r.file, r.op != In);
      var more := RedirsSound(s, j, reds + [x]);
      hide RdToks, Redirs;
      rs := [r] + more;
      RdCons(r, more);
      Assoc([OpTok(r.op), Txt(r.file)], RdToks(more), Toks(s, ParseRedirs(s, i, reds).pos));
      Assoc(reds, [x], Redirs(more));
    } else {
      NoRedir(s, i, reds);
      rs := [];
    }
  }

  lemma {:induction false} KnownRedir(s: Text, i: nat, reds: seq<Redir>, r: Rd, after: seq<Tok>) returns (j: nat)
    requires i <= |s| && Toks(s, i) == [OpTok(r.op), Txt(r.file)] + after
    ensures j <= |s| && Toks(s, j) == after
    ensures ParseRedirs(s, i, reds) == ParseRedirs(s, j, reds + [Redir(r.file, r.op != In)])
  {
    hide GetToken, Skip, Sees, Toks;
    Seen(s, i, {'<', '>'});
    assert Toks(s, i) == [OpTok(r.op)] + ([Txt(r.file)] + after);
    TakenIs(s, i, OpTok(r.op), [Txt(r.file)] + after);
    var op := GetToken(s, i);
    TakenIs(s, op.next, Txt(r.file), after);
    j := GetToken(s, op.next).next;
  }

  /** The parser reads every list of redirections of the grammar, up to where it ends. */
  lemma {:induction false} RedirsComplete(s: Text, i: nat, reds: seq<Redir>, rs: seq<Rd>, rest: seq<Tok>)
    requires i <= |s| && Toks(s, i) == RdToks(rs) + rest && !Starts(rest, {'<', '>'})
    ensures var r := ParseRedirs(s, i, reds); r.Ok? && r.value == reds + Redirs(rs) && Toks(s, r.pos) == rest
    decreases |rs|
  {
    hide Toks, ParseRedirs, Starts;
    if rs == [] {
      assert Toks(s, i) == rest;
      NoRedir(s, i, reds);
    } else {
      hide RdToks, Redirs;
      var r, more := rs[0], rs[1..];
      assert rs == [r] + more;
      RdCons(r, more);
      Assoc([OpTok(r.op), Txt(r.file)], RdToks(more), rest);
      var j := KnownRedir(s, i, reds, r, RdToks(more) + rest);
      var x := Redir(r.file, r.op != In);
      RedirsComplete(s, j, reds + [x], more, rest);
      Assoc(reds, [x], Redirs(more));
    }
  }

  // ----- words

  const STOPS: set<char> := {'|', ')', '&', ';'}

  /** Where a command ends. */
  predicate Ends(ts: seq<Tok>) { ts == [] || Starts(ts, STOPS) }

  lemma {:induction false} NoArg(s: Text, i: nat, c: Simple)
    requires i <= |s| && Ends(Toks(s, i))
    ensures ParseArgs(s, i, c).Ok? && ParseArgs(s, i, c).value == c && Toks(s, ParseArgs(s, i, c).pos) == Toks(s, i)
  {
    hide GetToken, Skip, Sees, Toks;
    Seen(s, i, STOPS);
    Taken(s, i);
    if Toks(s, i) == [] { NothingLeft(s, i); }
  }

  lemma {:induction false} NothingLeft(s: Text, i: nat)
    requires i <= |s| && Toks(s, i) == []
    ensures GetToken(s, i).next == |s| && Toks(s, |s|) == []
  {
  }

  lemma {:induction false} OneArg(s: Text, i: nat, c: Simple) returns (x: Span, j: nat)
    requires i <= |s| && !Ends(Toks(s, i)) && ParseArgs(s, i, c).Ok?
    ensures i < j <= |s| && Toks(s, i) == [Txt(x)] + Toks(s, j) && |c.args| + 1 <= 9
    ensures var r := ParseRedirs(s, j, c.reds);
            r.Ok? && ParseArgs(s, i, c) == ParseArgs(s, r.pos, Simple(c.args + [x], r.value))
  {
    hide GetToken, Skip, Sees, Toks, ParseRedirs;
    Seen(s, i, STOPS);
    Taken(s, i);
    var t := GetToken(s, i);
    x, j := Span(t.q, t.eq), t.next;
  }

  lemma {:induction false} KnownArg(s: Text, i: nat, c: Simple, x: Span, after: seq<Tok>) returns (j: nat)
    requires i <= |s| && Toks(s, i) == [Txt(x)] + after && |c.args| + 1 <= 9
    ensures j <= |s| && Toks(s, j) == after
    ensures var r := ParseRedirs(s, j, c.reds);
            r.Ok? ==> ParseArgs(s, i, c) == ParseArgs(s, r.pos, Simple(c.args + [x], r.value))
  {
    hide GetToken, Skip, Sees, Toks, ParseRedirs;
    Seen(s, i, STOPS);
    TakenIs(s, i, Txt(x), after);
    j := GetToken(s, i).next;
  }

  lemma {:induction false} PartsJoin(c: Simple, x: Span, rs: seq<Rd>, more: seq<Part>, rest: seq<Tok>)
    ensures [Txt(x)] + (RdToks(rs) + PartToks(more)) + rest == [Txt(x)] + (RdToks(rs) + (PartToks(more) + rest))
    ensures c.args + [x] + WordsOf(more) == c.args + ([x] + WordsOf(more))
    ensures c.reds + Redirs(rs) + Redirs(RedsOf(more)) == c.reds + (Redirs(rs) + Redirs(RedsOf(more)))
  {
  }

  lemma {:induction false} NoRedirNext(ps: seq<Part>, rest: seq<Tok>)
    requires Ends(rest)
    ensures !Starts(PartToks(ps) + rest, {'<', '>'}) && !Starts(PartToks(ps) + rest, {'('})
  {
    if ps == [] {
      assert PartToks(ps) + rest == rest;
    } else {
      assert (PartToks(ps) + rest)[0] == Txt(ps[0].word);
    }
  }

  lemma {:induction false} ArgsSound(s: Text, i: nat, c: Simple) returns (ps: seq<Part>)
    requires i <= |s| && ParseArgs(s, i, c).Ok? && |c.args| <= 9
    ensures var r := ParseArgs(s, i, c);
            && Toks(s, i) == PartToks(ps) + Toks(s, r.pos) && |r.value.args| <= 9
            && r.value.args == c.args + WordsOf(ps) && r.value.reds == c.reds + Redirs(RedsOf(ps))
    decreases |s| - i
  {
    hide Toks, ParseRedirs, ParseArgs, Starts;
    if Ends(Toks(s, i)) {
      NoArg(s, i, c);
      ps := [];
    } else {
      hide RdToks, PartToks, WordsOf, RedsOf, Redirs, Ends;
      var x, j := OneArg(s, i, c);
      var rs := RedirsSound(s, j, c.reds);
      var r := ParseRedirs(s, j, c.reds);
      var more := ArgsSound(s, r.pos, Simple(c.args + [x], r.value));
      ps := [Part(x, rs)] + more;
      PartCons(Part(x, rs), more);
      PartsJoin(c, x, rs, more, Toks(s, ParseArgs(s, i, c).pos));
    }
  }

  lemma {:induction false} ArgsComplete(s: Text, i: nat, c: Simple, ps: seq<Part>, rest: seq<Tok>)
    requires i <= |s| && Toks(s, i) == PartToks(ps) + rest && Ends(rest) && |c.args| + |ps| <= 9
    ensures var r := ParseArgs(s, i, c);
            && r.Ok? && Toks(s, r.pos) == rest
            && r.value.args == c.args + WordsOf(ps) && r.value.reds == c.reds + Redirs(RedsOf(ps))
    decreases |ps|
  {
    hide Toks, ParseRedirs, ParseArgs, Starts;
    if ps == [] {
      assert Toks(s, i) == rest;
      NoArg(s, i, c);
    } else {
      var x, rs, more := ps[0].word, ps[0].reds, ps[1..];
      assert ps == [Part(x, rs)] + more;
      NoRedirNext(more, rest);
      hide RdToks, PartToks, WordsOf, RedsOf, Redirs, Ends;
      PartCons(Part(x, rs), more);
      PartsJoin(c, x, rs, more, rest);
      var j := KnownArg(s, i, c, x, RdToks(rs) + (PartToks(more) + rest));
      RedirsComplete(s, j, c.reds, rs, PartToks(more) + rest);
      var r := ParseRedirs(s, j, c.reds);
      ArgsComplete(s, r.pos, Simple(c.args + [x], r.value), more, rest);
    }
  }

  // ----- one step of each parser, in terms of tokens

  lemma {:induction false} Symbols(s: Text, i: nat, c: char)
    requires i <= |s| && IsSymbol(c) && c != '>' && Starts(Toks(s, i), {c})
    ensures Sees(s, i, {c}) && GetToken(s, Skip(s, i)) == GetToken(s, i)
    ensures i < GetToken(s, i).next && Toks(s, i) == [Sym(c)] + Toks(s, GetToken(s, i).next)
  {
    hide GetToken, Skip, Sees, Toks;
    Seen(s, i, {c});
    Taken(s, i);
  }

  /** `parseexec` on a simple command. */
  lemma {:induction false} CommandStep(s: Text, i: nat) returns (j: nat)
    requires i <= |s| && !Starts(Toks(s, i), {'('})
    ensures i <= j <= |s| && Toks(s, j) == Toks(s, i)
    ensures ParseExec(s, i) ==
            var reds := ParseRedirs(s, j, []);
            if reds.Panic? then Panic
            else
              var r := ParseArgs(s, reds.pos, Simple([], reds.value));
              if r.Panic? then Panic else Ok(Wrap(Exec(r.value.args), r.value.reds), r.pos)
  {
    hide GetToken, Skip, Sees, Toks, ParseRedirs, ParseArgs, ParseBlock;
    Seen(s, i, {'('});
    j := Skip(s, i);
  }

  /** `parseexec` on a line in parentheses. */
  lemma {:induction false} BlockStep(s: Text, i: nat) returns (a: nat, b: nat)
    requires i <= |s| && Starts(Toks(s, i), {'('})
    ensures i < a <= |s| && b <= |s| && Toks(s, i) == [Sym('(')] + Toks(s, a)
    ensures var c := ParseLine(s, a);
            if c.Ok? && Starts(Toks(s, c.pos), {')'}) then
              && Toks(s, c.pos) == [Sym(')')] + Toks(s, b)
              && ParseExec(s, i) ==
                 var r := ParseRedirs(s, b, []);
                 if r.Panic? then Panic else Ok(Wrap(c.value, r.value), r.pos)
            else ParseExec(s, i).Panic?
  {
    Symbols(s, i, '(');
    hide GetToken, Skip, Toks, ParseRedirs, ParseLine;
    a := GetToken(s, i).next;
    var c := ParseLine(s, a);
    b := a;
    if c.Ok? {
      Seen(s, c.pos, {')'});
      if Starts(Toks(s, c.pos), {')'}) {
        Symbols(s, c.pos, ')');
        b := GetToken(s, c.pos).next;
      }
    }
  }

  lemma {:induction false} PipeStep(s: Text, i: nat) returns (a: nat)
    requires i <= |s| && ParseExec(s, i).Ok?
    ensures var l := ParseExec(s, i);
            && i <= l.pos <= a <= |s|
            && if Starts(Toks(s, l.pos), {'|'}) then
                 && i < a && Toks(s, l.pos) == [Sym('|')] + Toks(s, a)
                 && ParsePipe(s, i) == var r := ParsePipe(s, a);
                                       if r.Panic? then Panic else Ok(Pipe(l.value, r.value), r.pos)
               else Toks(s, a) == Toks(s, l.pos) && ParsePipe(s, i) == Ok(l.value, a)
  {
    hide GetToken, Skip, Sees, Toks, ParseExec;
    var l := ParseExec(s, i);
    Seen(s, l.pos, {'|'});
    if Starts(Toks(s, l.pos), {'|'}) {
      Symbols(s, l.pos, '|');
      a := GetToken(s, l.pos).next;
    } else {
      a := Skip(s, l.pos);
    }
  }

  lemma {:induction false} BackStep(s: Text, i: nat, c: Cmd) returns (a: nat)
    requires i <= |s|
    ensures i <= a <= |s|
    ensures if Starts(Toks(s, i), {'&'}) then
              i < a && Toks(s, i) == [Sym('&')] + Toks(s, a) && ParseBacks(s, i, c) == ParseBacks(s, a, Back(c))
            else Toks(s, a) == Toks(s, i) && ParseBacks(s, i, c) == Ok(c, a)
  {
    hide GetToken, Skip, Sees, Toks;
    Seen(s, i, {'&'});
    if Starts(Toks(s, i), {'&'}) {
      Symbols(s, i, '&');
      a := GetToken(s, i).next;
    } else {
      a := Skip(s, i);
    }
  }

  lemma {:induction false} LineStep(s: Text, i: nat) returns (a: nat)
    requires i <= |s| && ParsePipe(s, i).Ok?
    ensures var l := ParsePipe(s, i);
            var b := ParseBacks(s, l.pos, l.value);
            && i <= b.pos <= a <= |s|
            && if Starts(Toks(s, b.pos), {';'}) then
                 && i < a && Toks(s, b.pos) == [Sym(';')] + Toks(s, a)
                 && ParseLine(s, i) == var r := ParseLine(s, a);
                                       if r.Panic? then Panic else Ok(List(b.value, r.value), r.pos)
               else Toks(s, a) == Toks(s, b.pos) && ParseLine(s, i) == Ok(b.value, a)
  {
    hide GetToken, Skip, Sees, Toks, ParsePipe, ParseBacks;
    var l := ParsePipe(s, i);
    var b := ParseBacks(s, l.pos, l.value);
    Seen(s, b.pos, {';'});
    if Starts(Toks(s, b.pos), {';'}) {
      Symbols(s, b.pos, ';');
      a := GetToken(s, b.pos).next;
    } else {
      a := Skip(s, b.pos);
    }
  }

  // ----- whatever the parser accepts is a sentence, and the command is that of the sentence

  lemma {:induction false} CommandSound(s: Text, i: nat) returns (u: Unit)
    requires i <= |s| && !Starts(Toks(s, i), {'('}) && ParseExec(s, i).Ok?
    ensures var r := ParseExec(s, i); UnitOk(u) && Toks(s, i) == UnitToks(u) + Toks(s, r.pos) && r.value == UnitCmd(u)
  {
    hide Toks, ParseRedirs, ParseArgs, ParseExec, Starts;
    var j := CommandStep(s, i);
    var reds := ParseRedirs(s, j, []);
    var rs := RedirsSound(s, j, []);
    var r := ParseArgs(s, reds.pos, Simple([], reds.value));
    var ps := ArgsSound(s, reds.pos, Simple([], reds.value));
    u := Command(rs, ps);
    CommandIs(rs, ps, reds.value, r.value);
    Assoc(RdToks(rs), PartToks(ps), Toks(s, r.pos));
  }

  lemma {:induction false} CommandIs(rs: seq<Rd>, ps: seq<Part>, reds: seq<Redir>, c: Simple)
    requires reds == [] + Redirs(rs) && c.args == [] + WordsOf(ps) && c.reds == reds + Redirs(RedsOf(ps))
    ensures Wrap(Exec(c.args), c.reds) == UnitCmd(Command(rs, ps)) && |c.args| == |ps|
  {
    hide Wrap, Around, Redirs, RedsOf;
    WordsCount(ps);
    RedirsJoin(rs, RedsOf(ps));
    WrapAround(Exec(c.args), rs + RedsOf(ps));
    assert [] + Redirs(rs) == Redirs(rs) && [] + WordsOf(ps) == WordsOf(ps);
  }

  lemma {:induction false} WordsCount(ps: seq<Part>)
    ensures |WordsOf(ps)| == |ps|
    decreases |ps|
  {
    if ps != [] { WordsCount(ps[1..]); }
  }

  lemma {:induction false} UnitSound(s: Text, i: nat) returns (u: Unit)
    requires i <= |s| && ParseExec(s, i).Ok?
    ensures var r := ParseExec(s, i); UnitOk(u) && Toks(s, i) == UnitToks(u) + Toks(s, r.pos) && r.value == UnitCmd(u)
    decreases |s| - i, 0
  {
    hide Toks, ParseRedirs, ParseExec, ParseLine, Starts;
    if !Starts(Toks(s, i), {'('}) {
      u := CommandSound(s, i);
    } else {
      var a, b := BlockStep(s, i);
      var c := ParseLine(s, a);
      var l := LineSound(s, a);
      var rs := RedirsSound(s, b, []);
      u := Paren(l, rs);
      ParenIs(l, rs, Toks(s, ParseExec(s, i).pos));
    }
  }

  lemma {:induction false} ParenIs(l: Line, rs: seq<Rd>, rest: seq<Tok>)
    ensures UnitToks(Paren(l, rs)) + rest == [Sym('(')] + (LineToks(l) + ([Sym(')')] + (RdToks(rs) + rest)))
    ensures Wrap(LineCmd(l), [] + Redirs(rs)) == UnitCmd(Paren(l, rs))
  {
    hide LineToks, RdToks, Wrap, Around, LineCmd;
    WrapAround(LineCmd(l), rs);
    assert [] + Redirs(rs) == Redirs(rs);
  }

  lemma {:induction false} PipeSound(s: Text, i: nat) returns (p: Pipeline)
    requires i <= |s| && ParsePipe(s, i).Ok?
    ensures var r := ParsePipe(s, i); PipeOk(p) && Toks(s, i) == PipeToks(p) + Toks(s, r.pos) && r.value == PipeCmd(p)
    decreases |s| - i, 1
  {
    assert ParseExec(s, i).Ok?;
    hide Toks, ParseExec, ParsePipe, Starts;
    var l := ParseExec(s, i);
    var u := UnitSound(s, i);
    var a := PipeStep(s, i);
    hide UnitToks, UnitCmd, UnitOk;
    if Starts(Toks(s, l.pos), {'|'}) {
      var rest := PipeSound(s, a);
      p := Bar(u, rest);
      Joined(UnitToks(u), Sym('|'), PipeToks(rest), Toks(s, ParsePipe(s, i).pos));
    } else {
      p := One(u);
    }
  }

  lemma {:induction false} Joined(a: seq<Tok>, x: Tok, b: seq<Tok>, rest: seq<Tok>)
    ensures a + [x] + b + rest == a + ([x] + (b + rest))
  {
  }

  lemma {:induction false} BackLast(c: Cmd, n: nat)
    ensures InBack(Back(c), n) == InBack(c, n + 1)
    decreases n
  {
    if n > 0 { BackLast(c, n - 1); }
  }

  lemma {:induction false} BacksSound(s: Text, i: nat, c: Cmd) returns (n: nat)
    requires i <= |s|
    ensures var r := ParseBacks(s, i, c); Toks(s, i) == BackToks(n) + Toks(s, r.pos) && r.value == InBack(c, n)
    decreases |s| - i
  {
    hide Toks, ParseBacks, Starts;
    var a := BackStep(s, i, c);
    n := 0;
    if Starts(Toks(s, i), {'&'}) {
      var m := BacksSound(s, a, Back(c));
      n := m + 1;
      BackLast(c, m);
      Assoc([Sym('&')], BackToks(m), Toks(s, ParseBacks(s, i, c).pos));
    }
  }

  lemma {:induction false} LineSound(s: Text, i: nat) returns (l: Line)
    requires i <= |s| && ParseLine(s, i).Ok?
    ensures var r := ParseLine(s, i); LineOk(l) && Toks(s, i) == LineToks(l) + Toks(s, r.pos) && r.value == LineCmd(l)
    decreases |s| - i, 2
  {
    assert ParsePipe(s, i).Ok?;
    hide Toks, ParseLine, ParsePipe, ParseBacks, Starts;
    var c := ParsePipe(s, i);
    var p := PipeSound(s, i);
    var n := BacksSound(s, c.pos, c.value);
    var b := ParseBacks(s, c.pos, c.value);
    var a := LineStep(s, i);
    hide PipeToks, PipeCmd, PipeOk, BackToks, InBack;
    Assoc(PipeToks(p), BackToks(n), Toks(s, b.pos));
    if Starts(Toks(s, b.pos), {';'}) {
      var rest := LineSound(s, a);
      l := Then(p, n, rest);
      Joined(PipeToks(p) + BackToks(n), Sym(';'), LineToks(rest), Toks(s, ParseLine(s, i).pos));
    } else {
      l := Last(p, n);
    }
  }

  // ----- the parser accepts every sentence, and builds its command

  lemma {:induction false} CommandNoParen(rs: seq<Rd>, ps: seq<Part>, rest: seq<Tok>)
    requires Ends(rest)
    ensures !Starts(RdToks(rs) + PartToks(ps) + rest, {'('})
  {
    if rs == [] {
      assert RdToks(rs) + PartToks(ps) + rest == PartToks(ps) + rest;
      NoRedirNext(ps, rest);
    } else {
      assert (RdToks(rs) + PartToks(ps) + rest)[0] == OpTok(rs[0].op);
    }
  }

  lemma {:induction false} CommandComplete(s: Text, i: nat, rs: seq<Rd>, ps: seq<Part>, rest: seq<Tok>)
    requires i <= |s| && Toks(s, i) == UnitToks(Command(rs, ps)) + rest && Ends(rest) && |ps| <= 9
    ensures var r := ParseExec(s, i); r.Ok? && Toks(s, r.pos) == rest && r.value == UnitCmd(Command(rs, ps))
  {
    CommandNoParen(rs, ps, rest);
    NoRedirNext(ps, rest);
    Assoc(RdToks(rs), PartToks(ps), rest);
    hide Toks, ParseRedirs, ParseArgs, ParseExec, Starts, RdToks, PartToks, Ends, UnitCmd, Wrap;
    var j := CommandStep(s, i);
    RedirsComplete(s, j, [], rs, PartToks(ps) + rest);
    var reds := ParseRedirs(s, j, []);
    ArgsComplete(s, reds.pos, Simple([], reds.value), ps, rest);
    var r := ParseArgs(s, reds.pos, Simple([], reds.value));
    CommandIs(rs, ps, reds.value, r.value);
  }

  lemma {:induction false} UnitComplete(s: Text, i: nat, u: Unit, rest: seq<Tok>)
    requires i <= |s| && UnitOk(u) && Toks(s, i) == UnitToks(u) + rest && Ends(rest)
    ensures var r := ParseExec(s, i); r.Ok? && Toks(s, r.pos) == rest && r.value == UnitCmd(u)
    decreases u
  {
    match u
    case Command(rs, ps) => CommandComplete(s, i, rs, ps, rest);
    case Paren(l, rs) => ParenComplete(s, i, l, rs, rest);
  }

  lemma {:induction false} ParenComplete(s: Text, i: nat, l: Line, rs: seq<Rd>, rest: seq<Tok>)
    requires i <= |s| && LineOk(l) && Toks(s, i) == UnitToks(Paren(l, rs)) + rest && Ends(rest)
    ensures var r := ParseExec(s, i); r.Ok? && Toks(s, r.pos) == rest && r.value == UnitCmd(Paren(l, rs))
    decreases l, 1
  {
    ParenIs(l, rs, rest);
    var tail := RdToks(rs) + rest;
    assert Starts(Toks(s, i), {'('}) && Starts([Sym(')')] + tail, {')'}) && !Starts(rest, {'<', '>'});
    hide Toks, ParseRedirs, ParseExec, ParseLine, Starts, Ends, LineToks, RdToks, UnitToks, UnitCmd, LineOk, Wrap;
    var a, b := BlockStep(s, i);
    Cancel(Sym('('), Toks(s, a), LineToks(l) + ([Sym(')')] + tail));
    LineComplete(s, a, l, [Sym(')')] + tail);
    var c := ParseLine(s, a);
    Cancel(Sym(')'), Toks(s, b), tail);
    RedirsComplete(s, b, [], rs, rest);
  }

  lemma {:induction false} Cancel(x: Tok, a: seq<Tok>, b: seq<Tok>)
    requires [x] + a == [x] + b
    ensures a == b
  {
    assert a == ([x] + a)[1..] && b == ([x] + b)[1..];
  }

  /** Where a pipeline ends, and where a line ends. */
  predicate PipeEnds(ts: seq<Tok>) { ts == [] || Starts(ts, {')', '&', ';'}) }

  predicate LineEnds(ts: seq<Tok>) { ts == [] || Starts(ts, {')'}) }

  lemma {:induction false} PipeComplete(s: Text, i: nat, p: Pipeline, rest: seq<Tok>)
    requires i <= |s| && PipeOk(p) && Toks(s, i) == PipeToks(p) + rest && PipeEnds(rest)
    ensures var r := ParsePipe(s, i); r.Ok? && Toks(s, r.pos) == rest && r.value == PipeCmd(p)
    decreases p
  {
    match p
    case One(u) =>
      assert Ends(rest) && !Starts(rest, {'|'});
      hide Toks, ParseExec, ParsePipe, Starts, PipeEnds, UnitToks, UnitCmd, UnitOk, Ends;
      UnitComplete(s, i, u, rest);
      var a := PipeStep(s, i);
    case Bar(u, more) =>
      var tail := PipeToks(more) + rest;
      assert Ends([Sym('|')] + tail) && Starts([Sym('|')] + tail, {'|'});
      Joined(UnitToks(u), Sym('|'), PipeToks(more), rest);
      hide Toks, ParseExec, ParsePipe, Starts, PipeEnds, UnitToks, UnitCmd, UnitOk, Ends;
      UnitComplete(s, i, u, [Sym('|')] + tail);
      var a := PipeStep(s, i);
      Cancel(Sym('|'), Toks(s, a), tail);
      PipeComplete(s, a, more, rest);
  }

  lemma {:induction false} BacksComplete(s: Text, i: nat, c: Cmd, n: nat, rest: seq<Tok>)
    requires i <= |s| && Toks(s, i) == BackToks(n) + rest && !Starts(rest, {'&'})
    ensures var r := ParseBacks(s, i, c); Toks(s, r.pos) == rest && r.value == InBack(c, n)
    decreases n
  {
    if n == 0 {
      assert Toks(s, i) == rest;
      hide Toks, ParseBacks, Starts;
      var a := BackStep(s, i, c);
    } else {
      Assoc([Sym('&')], BackToks(n - 1), rest);
      assert Starts(Toks(s, i), {'&'});
      hide Toks, ParseBacks, Starts;
      var a := BackStep(s, i, c);
      Cancel(Sym('&'), Toks(s, a), BackToks(n - 1) + rest);
      BacksComplete(s, a, Back(c), n - 1, rest);
      BackLast(c, n - 1);
    }
  }

  lemma {:induction false} BacksEnd(n: nat, rest: seq<Tok>)
    requires LineEnds(rest) || Starts(rest, {';'})
    ensures PipeEnds(BackToks(n) + rest) && !Starts(rest, {'&'})
  {
    if n == 0 { assert BackToks(n) + rest == rest; }
  }

  lemma {:induction false} LineComplete(s: Text, i: nat, l: Line, rest: seq<Tok>)
    requires i <= |s| && LineOk(l) && Toks(s, i) == LineToks(l) + rest && LineEnds(rest)
    ensures var r := ParseLine(s, i); r.Ok? && Toks(s, r.pos) == rest && r.value == LineCmd(l)
    decreases l, 0
  {
    var p, n := l.pipe, l.backs;
    var tail := if l.Last? then rest else [Sym(';')] + (LineToks(l.rest) + rest);
    BacksEnd(n, tail);
    assert l.Last? ==> !Starts(tail, {';'});
    Assoc(PipeToks(p), BackToks(n), tail);
    if l.Then? { Joined(PipeToks(p) + BackToks(n), Sym(';'), LineToks(l.rest), rest); }
    hide Toks, ParseLine, ParsePipe, ParseBacks, PipeToks, PipeCmd, PipeOk, PipeEnds, BackToks, InBack;
    PipeComplete(s, i, p, BackToks(n) + tail);
    var c := ParsePipe(s, i);
    BacksComplete(s, c.pos, c.value, n, tail);
    var a := LineStep(s, i);
    if l.Then? {
      Cancel(Sym(';'), Toks(s, a), LineToks(l.rest) + rest);
      LineComplete(s, a, l.rest, rest);
    }
  }

  // ----- the language

  /** The tokens of the input are those of the line. */
  ghost predicate Reads(s: Text, l: Line) { LineOk(l) && Toks(s, 0) == LineToks(l) }

  /** `parsecmd` accepts exactly the inputs whose tokens are a line of the grammar. */
  lemma {:induction false} Accepts(s: Text)
    ensures ParseCmd(s).Ok? <==> exists l :: Reads(s, l)
  {
    if ParseCmd(s).Ok? {
      var l := AcceptsLine(s);
    } else if l :| Reads(s, l) {
      Understands(s, l);
    }
  }

  lemma {:induction false} AcceptsLine(s: Text) returns (l: Line)
    requires ParseCmd(s).Ok?
    ensures Reads(s, l)
  {
    hide ParseLine, LineToks, LineOk;
    var r := ParseLine(s, 0);
    l := LineSound(s, 0);
    assert Toks(s, r.pos) == [];
    assert LineToks(l) + [] == LineToks(l);
  }

  /** And it builds the command of that line. */
  lemma {:induction false} Understands(s: Text, l: Line)
    requires Reads(s, l)
    ensures ParseCmd(s).Ok? && ParseCmd(s).value == LineCmd(l)
  {
    hide ParseLine, LineToks, LineOk, LineCmd;
    assert LineToks(l) + [] == LineToks(l);
    LineComplete(s, 0, l, []);
    var r := ParseLine(s, 0);
    NothingLeft(s, r.pos);
  }
}
