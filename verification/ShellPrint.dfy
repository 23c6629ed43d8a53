/**
Command trees printed with full parentheses, and what the parser of `src/user/sh/main.c` makes of
them: the same tree, with all of the input consumed.
*/
module ShellPrint {
  import opened ShellParser

  datatype Tree =
    | Run(words: seq<seq<char>>)
    | To(tree: Tree, file: seq<char>, out: bool)
    | Piped(left: Tree, right: Tree)
    | Listed(left: Tree, right: Tree)
    | InBack(tree: Tree)

  predicate IsWord(w: seq<char>) {
    w != [] && forall i :: 0 <= i < |w| ==> Plain(w[i])
  }

  predicate Words(ws: seq<seq<char>>) {
    forall i :: 0 <= i < |ws| ==> IsWord(ws[i])
  }

  /** Plain words, at most nine for a command. */
  predicate Printable(t: Tree) {
    match t
    case Run(ws) => |ws| < MAX_ARGS && Words(ws)
    case To(c, f, _) => IsWord(f) && Printable(c)
    case Piped(l, r) => Printable(l) && Printable(r)
    case Listed(l, r) => Printable(l) && Printable(r)
    case InBack(c) => Printable(c)
  }

  function Join(ws: seq<seq<char>>): seq<char> {
    if ws == [] then [] else if |ws| == 1 then ws[0] else ws[0] + " " + Join(ws[1..])
  }

  function Print(t: Tree): seq<char>
    decreases t, 0
  {
    match t
    case Run(ws) => Join(ws)
    case To(c, f, out) => Block(c) + (if out then ">" else "<") + f
    case Piped(l, r) => Block(l) + "|" + Block(r)
    case Listed(l, r) => Block(l) + ";" + Block(r)
    case InBack(c) => Block(c) + "&"
  }

  function Block(t: Tree): seq<char>
    decreases t, 1
  {
    "(" + Print(t) + ")"
  }

  /** The command has the shape of the tree, and its spans the texts. */
  predicate Means(s: Text, c: Cmd, t: Tree) {
    match t
    case Run(ws) => c.Exec? && Texts(s, c.args, ws)
    case To(u, f, out) => c.Redirect? && c.redir.out == out && Reads(s, c.redir.file, f) && Means(s, c.cmd, u)
    case Piped(l, r) => c.Pipe? && Means(s, c.left, l) && Means(s, c.right, r)
    case Listed(l, r) => c.List? && Means(s, c.left, l) && Means(s, c.right, r)
    case InBack(u) => c.Back? && Means(s, c.cmd, u)
  }

  predicate Reads(s: Text, x: Span, w: seq<char>) {
    x.q <= x.eq <= |s| && s[x.q..x.eq] == w
  }

  predicate Texts(s: Text, xs: seq<Span>, ws: seq<seq<char>>) {
    |xs| == |ws| && forall i :: 0 <= i < |ws| ==> Reads(s, xs[i], ws[i])
  }

  // ----- reading tokens

  predicate Here(s: Text, i: nat, x: seq<char>) {
    i + |x| <= |s| && s[i..i + |x|] == x
  }

  /** The end of a command. */
  predicate Stop(s: Text, j: nat) { j == |s| || (j < |s| && s[j] == ')') }

  lemma {:induction false} HereSplit(s: Text, i: nat, x: seq<char>, y: seq<char>)
    requires Here(s, i, x + y)
    ensures Here(s, i, x) && Here(s, i + |x|, y)
  {
    var z := x + y;
    assert s[i..i + |x|] == z[..|x|] == x;
    assert s[i + |x|..i + |x| + |y|] == z[|x|..] == y;
  }

  lemma {:induction false} HereFirst(s: Text, i: nat, x: seq<char>)
    requires Here(s, i, x) && x != []
    ensures i < |s| && s[i] == x[0]
  {
    assert s[i..i + |x|][0] == s[i];
  }

  lemma {:induction false} WordEndIs(s: Text, i: nat, w: seq<char>)
    requires Here(s, i, w) && (forall k :: 0 <= k < |w| ==> Plain(w[k])) && (i + |w| < |s| ==> !Plain(s[i + |w|]))
    ensures WordEnd(s, i) == i + |w|
    decreases |w|
  {
    if w != [] {
      HereFirst(s, i, w);
      assert s[i + 1..i + |w|] == w[1..];
      WordEndIs(s, i + 1, w[1..]);
    }
  }

  /** A word, followed by the end, a space or a symbol. */
  lemma {:induction false} WordToken(s: Text, i: nat, w: seq<char>)
    requires Here(s, i, w) && IsWord(w) && (i + |w| < |s| ==> !Plain(s[i + |w|]))
    ensures GetToken(s, i) == Token(Word, i, i + |w|, Skip(s, i + |w|))
    ensures !Sees(s, i, {'|', ')', '&', ';'}) && !Sees(s, i, {'<', '>'}) && !Sees(s, i, {'('})
  {
    HereFirst(s, i, w);
    WordEndIs(s, i, w);
  }

  // ----- a simple command

  /** Where the second word starts, or the end. */
  function AfterFirst(i: nat, ws: seq<seq<char>>): nat
    requires ws != []
  {
    if |ws| == 1 then i + |ws[0]| else i + |ws[0]| + 1
  }

  lemma {:induction false} WordsTail(ws: seq<seq<char>>)
    requires Words(ws) && ws != []
    ensures IsWord(ws[0]) && Words(ws[1..])
  {
  }

  /** A word, a space, and more. */
  lemma {:induction false} SpaceBetween(s: Text, i: nat, w: seq<char>, rest: seq<char>)
    requires Here(s, i, w + " " + rest) && rest != [] && Plain(rest[0])
    ensures Here(s, i, w) && i + |w| < |s| && s[i + |w|] == ' ' && Skip(s, i + |w|) == i + |w| + 1
    ensures Here(s, i + |w| + 1, rest) && !Sees(s, i + |w| + 1, {'<', '>'})
  {
    var j := i + |w|;
    HereSplit(s, i, w + " ", rest);
    HereSplit(s, i, w, " ");
    HereFirst(s, j, " ");
    HereFirst(s, j + 1, rest);
  }

  /** A word at `i`, and the next thing, which is no redirection, at `k`. */
  predicate NextWord(s: Text, i: nat, w: seq<char>, k: nat) {
    && Here(s, i, w) && IsWord(w) && (i + |w| < |s| ==> !Plain(s[i + |w|]))
    && Skip(s, i + |w|) == k && Skip(s, k) == k && !Sees(s, k, {'<', '>'})
  }

  lemma {:induction false} JoinedFirst(s: Text, i: nat, ws: seq<seq<char>>, end: nat)
    requires ws != [] && Here(s, i, Join(ws)) && end == i + |Join(ws)| && Stop(s, end) && Words(ws)
    ensures NextWord(s, i, ws[0], AfterFirst(i, ws))
    ensures Here(s, AfterFirst(i, ws), Join(ws[1..])) && end == AfterFirst(i, ws) + |Join(ws[1..])| && Words(ws[1..])
  {
    if |ws| > 1 {
      WordsTail(ws);
      JoinFirst(ws[1..]);
      SpaceBetween(s, i, ws[0], Join(ws[1..]));
    }
  }

  lemma {:induction false} JoinFirst(ws: seq<seq<char>>)
    requires ws != [] && IsWord(ws[0])
    ensures Join(ws) != [] && Plain(Join(ws)[0])
  {
  }

  /** One more word for `parseexec`. */
  lemma {:induction false} OneArg(s: Text, i: nat, w: seq<char>, k: nat, c: Simple)
    requires NextWord(s, i, w, k) && |c.args| + 1 < MAX_ARGS
    ensures ParseArgs(s, i, c) == ParseArgs(s, k, Simple(c.args + [Span(i, i + |w|)], c.reds))
  {
    hide WordEnd, Plain, ParseRedirs;
    WordToken(s, i, w);
    NoRedirHere(s, k, c.reds);
  }

  lemma {:induction false} NoRedirHere(s: Text, k: nat, reds: seq<Redir>)
    requires k <= |s| && !Sees(s, k, {'<', '>'}) && Skip(s, k) == k
    ensures ParseRedirs(s, k, reds) == Ok(reds, k)
  {
  }

  lemma {:induction false} TextsCons(s: Text, xs: seq<Span>, n: nat, args: seq<Span>, x: Span, ws: seq<seq<char>>)
    requires ws != [] && n == |args| && n + 1 <= |xs| && xs[..n + 1] == args + [x] && Reads(s, x, ws[0])
    requires Texts(s, xs[n + 1..], ws[1..])
    ensures xs[..n] == args && Texts(s, xs[n..], ws)
  {
    assert xs[..n] == xs[..n + 1][..n] == args;
    assert xs[n] == xs[..n + 1][n] == x;
    var ys := xs[n..];
    assert |ys| == |ws|;
    forall k | 0 <= k < |ws| ensures Reads(s, ys[k], ws[k]) {
      if k > 0 {
        assert ys[k] == xs[n + 1..][k - 1] && ws[k] == ws[1..][k - 1];
      }
    }
  }

  /** The words `ws` have been added to the arguments. */
  predicate Added(s: Text, r: Result<Simple>, c: Simple, ws: seq<seq<char>>, end: nat) {
    && r.Ok? && r.pos == end && r.value.reds == c.reds
    && |r.value.args| == |c.args| + |ws| && r.value.args[..|c.args|] == c.args && Texts(s, r.value.args[|c.args|..], ws)
  }

  lemma {:induction false} NoArgs(s: Text, i: nat, c: Simple)
    requires Stop(s, i)
    ensures Added(s, ParseArgs(s, i, c), c, [], i)
  {
    assert Skip(s, i) == i;
  }

  lemma {:induction false} MoreArgs(s: Text, r: Result<Simple>, c: Simple, x: Span, ws: seq<seq<char>>, end: nat)
    requires ws != [] && Reads(s, x, ws[0]) && Added(s, r, Simple(c.args + [x], c.reds), ws[1..], end)
    ensures Added(s, r, c, ws, end)
  {
    TextsCons(s, r.value.args, |c.args|, c.args, x, ws);
  }

  /** The loop of `parseexec`: it takes one word after another, up to the end of the command. */
  ghost predicate TakesWords(s: Text, parse: (nat, Simple) -> Result<Simple>) {
    && (forall i: nat, w: seq<char>, k: nat, c: Simple {:trigger NextWord(s, i, w, k), parse(i, c)} ::
        NextWord(s, i, w, k) && |c.args| + 1 < MAX_ARGS ==>
          parse(i, c) == parse(k, Simple(c.args + [Span(i, i + |w|)], c.reds)))
    && (forall i: nat, w: seq<char>, k: nat, c: Simple {:trigger NextWord(s, i, w, k), parse(i, c)} ::
          NextWord(s, i, w, k) && |c.args| + 1 >= MAX_ARGS ==> parse(i, c).Panic?)
    && (forall i: nat, c: Simple {:trigger parse(i, c)} :: Stop(s, i) ==> Added(s, parse(i, c), c, [], i))
  }

  /** Words separated by single spaces, up to the end of the command. */
  lemma {:induction false} AllWords(s: Text, parse: (nat, Simple) -> Result<Simple>, i: nat, c: Simple,
                                    ws: seq<seq<char>>, end: nat)
    requires TakesWords(s, parse)
    requires Here(s, i, Join(ws)) && end == i + |Join(ws)| && Stop(s, end) && |c.args| + |ws| < MAX_ARGS && Words(ws)
    ensures Added(s, parse(i, c), c, ws, end)
    decreases |ws|
  {
    if ws != [] {
      var x, k := Span(i, i + |ws[0]|), AfterFirst(i, ws);
      JoinedFirst(s, i, ws, end);
      AllWords(s, parse, k, Simple(c.args + [x], c.reds), ws[1..], end);
      MoreArgs(s, parse(i, c), c, x, ws, end);
    }
  }

  lemma {:induction false} TooManyWords(s: Text, parse: (nat, Simple) -> Result<Simple>, i: nat, c: Simple,
                                        ws: seq<seq<char>>, end: nat)
    requires TakesWords(s, parse)
    requires Here(s, i, Join(ws)) && end == i + |Join(ws)| && Stop(s, end) && |c.args| < MAX_ARGS <= |c.args| + |ws|
    requires Words(ws)
    ensures parse(i, c).Panic?
    decreases |ws|
  {
    var x, k := Span(i, i + |ws[0]|), AfterFirst(i, ws);
    JoinedFirst(s, i, ws, end);
    if |c.args| + 1 < MAX_ARGS {
      TooManyWords(s, parse, k, Simple(c.args + [x], c.reds), ws[1..], end);
    }
  }

  /** `parseexec` takes the words if there are fewer than ten, and panics otherwise. */
  lemma {:induction false} ArgsOk(s: Text, i: nat, ws: seq<seq<char>>)
    requires Here(s, i, Join(ws)) && Stop(s, i + |Join(ws)|) && Words(ws)
    ensures var r := ParseArgs(s, i, Simple([], []));
            if |ws| < MAX_ARGS then Added(s, r, Simple([], []), ws, i + |Join(ws)|) else r.Panic?
  {
    var parse := (j: nat, x: Simple) => if j <= |s| then ParseArgs(s, j, x) else Panic;
    assert TakesWords(s, parse) by {
      forall j: nat, w: seq<char>, k: nat, x: Simple | NextWord(s, j, w, k) && |x.args| + 1 < MAX_ARGS
        ensures parse(j, x) == parse(k, Simple(x.args + [Span(j, j + |w|)], x.reds))
      {
        OneArg(s, j, w, k, x);
      }
      forall j: nat, w: seq<char>, k: nat, x: Simple | NextWord(s, j, w, k) && |x.args| + 1 >= MAX_ARGS
        ensures parse(j, x).Panic?
      {
        WordToken(s, j, w);
      }
      forall j: nat, x: Simple | Stop(s, j) ensures Added(s, parse(j, x), x, [], j) { NoArgs(s, j, x); }
    }
    if |ws| < MAX_ARGS {
      AllWords(s, parse, i, Simple([], []), ws, i + |Join(ws)|);
    } else {
      TooManyWords(s, parse, i, Simple([], []), ws, i + |Join(ws)|);
    }
  }

  // ----- one step of each parser

  /** Something that ends a command in a pipe, or the end. */
  predicate Ends(s: Text, j: nat) {
    j == |s| || (j < |s| && (s[j] == ')' || s[j] == '|' || s[j] == '&' || s[j] == ';'))
  }

  /** A symbol other than `>`, with no space behind it. */
  lemma {:induction false} SymbolToken(s: Text, i: nat)
    requires i < |s| && IsSymbol(s[i]) && s[i] != '>' && (i + 1 < |s| ==> !IsSpace(s[i + 1]))
    ensures GetToken(s, i) == Token(Symbol(s[i]), i, i + 1, i + 1) && Skip(s, i) == i
  {
  }

  lemma {:induction false} NoRedirs(s: Text, j: nat, reds: seq<Redir>)
    requires Ends(s, j)
    ensures Skip(s, j) == j && ParseRedirs(s, j, reds) == Ok(reds, j)
  {
  }

  /** A block, up to its closing parenthesis at `j`. */
  predicate InParens(s: Text, i: nat, j: nat) {
    i + 1 <= j < |s| && s[i] == '(' && s[j] == ')' && !IsSpace(s[i + 1])
  }

  lemma {:induction false} ExecBlock(s: Text, i: nat, j: nat, c: Cmd)
    requires InParens(s, i, j) && ParseLine(s, i + 1) == Ok(c, j) && Ends(s, j + 1)
    ensures ParseExec(s, i) == Ok(c, j + 1)
  {
    hide ParseLine, ParseArgs, ParseRedirs;
    SymbolToken(s, i);
    SymbolToken(s, j);
    NoRedirs(s, j + 1, []);
  }

  lemma {:induction false} OneRedir(s: Text, j: nat, f: seq<char>, out: bool)
    requires j < |s| && s[j] == (if out then '>' else '<') && Here(s, j + 1, f) && IsWord(f) && Stop(s, j + 1 + |f|)
    ensures Skip(s, j) == j && ParseRedirs(s, j, []) == Ok([Redir(Span(j + 1, j + 1 + |f|), out)], j + 1 + |f|)
  {
    HereFirst(s, j + 1, f);
    WordToken(s, j + 1, f);
    assert GetToken(s, j) == Token(Symbol(s[j]), j, j + 1, j + 1);
    var red := Redir(Span(j + 1, j + 1 + |f|), out);
    assert [] + [red] == [red];
    NoRedirs(s, j + 1 + |f|, [red]);
  }

  lemma {:induction false} ExecRedir(s: Text, i: nat, j: nat, c: Cmd, f: seq<char>, out: bool)
    requires InParens(s, i, j) && ParseLine(s, i + 1) == Ok(c, j)
    requires j + 1 < |s| && s[j + 1] == (if out then '>' else '<') && Here(s, j + 2, f) && IsWord(f)
    requires Stop(s, j + 2 + |f|)
    ensures ParseExec(s, i) == Ok(Redirect(c, Redir(Span(j + 2, j + 2 + |f|), out)), j + 2 + |f|)
  {
    hide ParseLine, ParseArgs, ParseRedirs;
    SymbolToken(s, i);
    SymbolToken(s, j);
    OneRedir(s, j + 1, f, out);
    var red := Redir(Span(j + 2, j + 2 + |f|), out);
    assert Wrap(c, [red]) == Redirect(Wrap(c, []), red);
  }

  lemma {:induction false} PipeOne(s: Text, i: nat, j: nat, c: Cmd)
    requires i <= |s| && ParseExec(s, i) == Ok(c, j) && Ends(s, j) && (j < |s| ==> s[j] != '|')
    ensures ParsePipe(s, i) == Ok(c, j)
  {
    hide ParseExec;
  }

  lemma {:induction false} PipeTwo(s: Text, i: nat, j: nat, l: Cmd, r: Cmd, end: nat)
    requires i <= |s| && ParseExec(s, i) == Ok(l, j) && j + 1 < |s| && s[j] == '|' && !IsSpace(s[j + 1])
    requires ParsePipe(s, j + 1) == Ok(r, end)
    ensures ParsePipe(s, i) == Ok(Pipe(l, r), end)
  {
    hide ParseExec;
    SymbolToken(s, j);
  }

  lemma {:induction false} LineOne(s: Text, i: nat, j: nat, c: Cmd)
    requires i <= |s| && ParsePipe(s, i) == Ok(c, j) && Stop(s, j)
    ensures ParseLine(s, i) == Ok(c, j)
  {
    assert ParseBacks(s, j, c) == Ok(c, j);
  }

  lemma {:induction false} LineBack(s: Text, i: nat, j: nat, c: Cmd)
    requires i <= |s| && ParsePipe(s, i) == Ok(c, j) && j < |s| && s[j] == '&' && Stop(s, j + 1)
    ensures ParseLine(s, i) == Ok(Back(c), j + 1)
  {
    SymbolToken(s, j);
    assert ParseBacks(s, j + 1, Back(c)) == Ok(Back(c), j + 1);
    assert ParseBacks(s, j, c) == Ok(Back(c), j + 1);
  }

  lemma {:induction false} LineTwo(s: Text, i: nat, j: nat, l: Cmd, r: Cmd, end: nat)
    requires i <= |s| && ParsePipe(s, i) == Ok(l, j) && j + 1 < |s| && s[j] == ';' && !IsSpace(s[j + 1])
    requires ParseLine(s, j + 1) == Ok(r, end) && Stop(s, end)
    ensures ParseLine(s, i) == Ok(List(l, r), end)
  {
    SymbolToken(s, j);
    assert ParseBacks(s, j, l) == Ok(l, j);
  }

  lemma {:induction false} ExecRun(s: Text, i: nat, ws: seq<seq<char>>) returns (c: Cmd)
    requires Here(s, i, Join(ws)) && Stop(s, i + |Join(ws)|) && |ws| < MAX_ARGS && Words(ws)
    ensures ParseExec(s, i) == Ok(c, i + |Join(ws)|) && Means(s, c, Run(ws))
  {
    if ws != [] {
      JoinFirst(ws);
      HereFirst(s, i, Join(ws));
    }
    assert Skip(s, i) == i && !Sees(s, i, {'('}) && ParseRedirs(s, i, []) == Ok([], i);
    ArgsOk(s, i, ws);
    var args := ParseArgs(s, i, Simple([], [])).value.args;
    assert args[0..] == args;
    c := Exec(args);
  }

  // ----- whole trees

  lemma {:induction false} PrintFirst(t: Tree)
    requires Printable(t)
    ensures Print(t) != [] ==> !IsSpace(Print(t)[0])
  {
    match t
    case Run(ws) => if ws != [] { JoinFirst(ws); }
    case _ => assert Print(t)[0] == '(';
  }

  lemma {:induction false} BlockHere(s: Text, i: nat, t: Tree)
    requires Printable(t) && Here(s, i, Block(t))
    ensures InParens(s, i, i + 1 + |Print(t)|) && Here(s, i + 1, Print(t)) && |Block(t)| == |Print(t)| + 2
  {
    PrintFirst(t);
    var p := Print(t);
    HereSplit(s, i, "(" + p, ")");
    HereSplit(s, i, "(", p);
    HereFirst(s, i, "(");
    HereFirst(s, i + 1 + |p|, ")");
    if p != [] { HereFirst(s, i + 1, p); }
  }

  /** Two blocks with a symbol between them. */
  lemma {:induction false} TwoBlocks(s: Text, i: nat, l: Tree, op: char, r: Tree)
    requires Printable(l) && Printable(r) && Here(s, i, Block(l) + [op] + Block(r))
    ensures Here(s, i, Block(l)) && i + |Block(l)| + 1 < |s| && s[i + |Block(l)|] == op
    ensures Here(s, i + |Block(l)| + 1, Block(r)) && !IsSpace(s[i + |Block(l)| + 1])
  {
    var j := i + |Block(l)|;
    HereSplit(s, i, Block(l) + [op], Block(r));
    HereSplit(s, i, Block(l), [op]);
    HereFirst(s, j, [op]);
    HereFirst(s, j + 1, Block(r));
  }

  /** A block as part of a command. */
  lemma {:induction false} BlockOk(s: Text, i: nat, t: Tree) returns (c: Cmd)
    requires Printable(t) && Here(s, i, Block(t)) && Ends(s, i + |Block(t)|)
    ensures ParseExec(s, i) == Ok(c, i + |Block(t)|) && Means(s, c, t)
    decreases t, 2
  {
    hide ParseLine, ParseExec;
    BlockHere(s, i, t);
    c := LineOk(s, i + 1, t);
    ExecBlock(s, i, i + 1 + |Print(t)|, c);
  }

  /** A block as a line of its own. */
  lemma {:induction false} BlockLine(s: Text, i: nat, t: Tree) returns (c: Cmd)
    requires Printable(t) && Here(s, i, Block(t)) && Stop(s, i + |Block(t)|)
    ensures ParsePipe(s, i) == Ok(c, i + |Block(t)|) && ParseLine(s, i) == Ok(c, i + |Block(t)|) && Means(s, c, t)
    decreases t, 3
  {
    hide ParseLine, ParseExec, ParsePipe;
    c := BlockOk(s, i, t);
    PipeOne(s, i, i + |Block(t)|, c);
    LineOne(s, i, i + |Block(t)|, c);
  }

  lemma {:induction false} RunLine(s: Text, i: nat, ws: seq<seq<char>>) returns (c: Cmd)
    requires Printable(Run(ws)) && Here(s, i, Join(ws)) && Stop(s, i + |Join(ws)|)
    ensures ParseLine(s, i) == Ok(c, i + |Join(ws)|) && Means(s, c, Run(ws))
  {
    hide ParseLine, ParseExec, ParsePipe;
    c := ExecRun(s, i, ws);
    PipeOne(s, i, i + |Join(ws)|, c);
    LineOne(s, i, i + |Join(ws)|, c);
  }

  lemma {:induction false} RedirLine(s: Text, i: nat, u: Tree, f: seq<char>, out: bool) returns (c: Cmd)
    requires var t := To(u, f, out); Printable(t) && Here(s, i, Print(t)) && Stop(s, i + |Print(t)|)
    ensures ParseLine(s, i) == Ok(c, i + |Print(To(u, f, out))|) && Means(s, c, To(u, f, out))
    decreases To(u, f, out), 0
  {
    hide ParseLine, ParseExec, ParsePipe;
    var op: seq<char> := if out then ">" else "<";
    var end := i + |Print(To(u, f, out))|;
    HereSplit(s, i, Block(u) + op, f);
    HereSplit(s, i, Block(u), op);
    BlockHere(s, i, u);
    var j := i + 1 + |Print(u)|;
    HereFirst(s, j + 1, op);
    var d := LineOk(s, i + 1, u);
    ExecRedir(s, i, j, d, f, out);
    c := Redirect(d, Redir(Span(j + 2, end), out));
    PipeOne(s, i, end, c);
    LineOne(s, i, end, c);
  }

  lemma {:induction false} PipeLine(s: Text, i: nat, l: Tree, r: Tree) returns (c: Cmd)
    requires var t := Piped(l, r); Printable(t) && Here(s, i, Print(t)) && Stop(s, i + |Print(t)|)
    ensures ParseLine(s, i) == Ok(c, i + |Print(Piped(l, r))|) && Means(s, c, Piped(l, r))
    decreases Piped(l, r), 0
  {
    hide ParseLine, ParseExec, ParsePipe;
    TwoBlocks(s, i, l, '|', r);
    var j, end := i + |Block(l)|, i + |Print(Piped(l, r))|;
    var a := BlockOk(s, i, l);
    var b := BlockLine(s, j + 1, r);
    PipeTwo(s, i, j, a, b, end);
    c := Pipe(a, b);
    LineOne(s, i, end, c);
  }

  lemma {:induction false} ListLine(s: Text, i: nat, l: Tree, r: Tree) returns (c: Cmd)
    requires var t := Listed(l, r); Printable(t) && Here(s, i, Print(t)) && Stop(s, i + |Print(t)|)
    ensures ParseLine(s, i) == Ok(c, i + |Print(Listed(l, r))|) && Means(s, c, Listed(l, r))
    decreases Listed(l, r), 0
  {
    hide ParseLine, ParseExec, ParsePipe;
    TwoBlocks(s, i, l, ';', r);
    var j, end := i + |Block(l)|, i + |Print(Listed(l, r))|;
    var a := BlockOk(s, i, l);
    PipeOne(s, i, j, a);
    var b := BlockLine(s, j + 1, r);
    LineTwo(s, i, j, a, b, end);
    c := List(a, b);
  }

  lemma {:induction false} BackLine(s: Text, i: nat, u: Tree) returns (c: Cmd)
    requires var t := InBack(u); Printable(t) && Here(s, i, Print(t)) && Stop(s, i + |Print(t)|)
    ensures ParseLine(s, i) == Ok(c, i + |Print(InBack(u))|) && Means(s, c, InBack(u))
    decreases InBack(u), 0
  {
    hide ParseLine, ParseExec, ParsePipe;
    HereSplit(s, i, Block(u), "&");
    var j := i + |Block(u)|;
    HereFirst(s, j, "&");
    var a := BlockOk(s, i, u);
    PipeOne(s, i, j, a);
    LineBack(s, i, j, a);
    c := Back(a);
  }

  /** Parsing what was printed gives the tree back. */
  lemma {:induction false} LineOk(s: Text, i: nat, t: Tree) returns (c: Cmd)
    requires Printable(t) && Here(s, i, Print(t)) && Stop(s, i + |Print(t)|)
    ensures ParseLine(s, i) == Ok(c, i + |Print(t)|) && Means(s, c, t)
    decreases t, 1
  {
    hide ParseLine;
    match t
    case Run(ws) => c := RunLine(s, i, ws);
    case To(u, f, out) => c := RedirLine(s, i, u, f, out);
    case Piped(l, r) => c := PipeLine(s, i, l, r);
    case Listed(l, r) => c := ListLine(s, i, l, r);
    case InBack(u) => c := BackLine(s, i, u);
  }

  /** For every tree of plain words with at most nine to a command, `parsecmd` of its printing gives
      that tree and leaves nothing over. */
  lemma {:induction false} RoundTrip(t: Tree, s: Text)
    requires Printable(t) && s == Print(t)
    ensures ParseCmd(s).Ok? && Means(s, ParseCmd(s).value, t)
  {
    hide ParseLine;
    assert s[0..|s|] == s;
    var c := LineOk(s, 0, t);
  }

  /** The bound is exact: words are parsed as a command if and only if there are at most nine. */
  lemma {:induction false} NineArguments(ws: seq<seq<char>>, s: Text)
    requires Words(ws) && s == Join(ws)
    ensures ParseCmd(s).Ok? <==> |ws| <= 9
  {
    assert s[0..|s|] == s;
    if |ws| <= 9 {
      RoundTrip(Run(ws), s);
    } else {
      TooLong(s, ws);
    }
  }

  lemma {:induction false} TooLong(s: Text, ws: seq<seq<char>>)
    requires Here(s, 0, Join(ws)) && |s| == |Join(ws)| && Words(ws) && |ws| >= MAX_ARGS
    ensures ParseCmd(s).Panic?
  {
    JoinFirst(ws);
    HereFirst(s, 0, Join(ws));
    ArgsOk(s, 0, ws);
    assert ParseRedirs(s, 0, []) == Ok([], 0);
    assert ParseExec(s, 0).Panic?;
    assert ParsePipe(s, 0).Panic?;
  }
}
