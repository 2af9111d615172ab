/**
 The parser of platform/visionfive2/user/sh.c. The line is the sequence s of its characters before the terminating NUL,
 and a pointer into it is an index. What the parse functions return is first defined on the tokens of the line.
 */
module Shell {

  const MAXARGS := 10
  const O_RDONLY := 0
  const O_WRITE := 0x601      // O_WRONLY | O_CREATE | O_TRUNC
  const O_APPEND := 0x201     // O_WRONLY | O_CREATE

  /** A command whose words are of type W: texts, or places in the line. */
  datatype Cmd<W> =
    | Exec(args: seq<W>)
    | Redir(cmd: Cmd<W>, file: W, mode: int, fd: int)
    | Pipe(left: Cmd<W>, right: Cmd<W>)
    | List(left: Cmd<W>, right: Cmd<W>)
    | Back(cmd: Cmd<W>)

  // A word recorded as its first character and the one after its last.
  datatype Span = Span(q: nat, eq: nat)

  datatype Error = Syntax | MissingFile | MissingParen | TooManyArgs

  // What a parse function returns, and where it stops.
  datatype Out = Fail(error: Error) | Ok(value: Cmd<Span>, pos: nat)

  // Nul stands for the end of the line, and Append is the token ">>".
  datatype Class = Nul | Blank | Bar | LParen | RParen | Semi | Amp | Lt | Gt | Append | Word

  function ClassOf(c: char): Class {
    if c == '\0' then Nul
    else if c == ' ' || c == '\t' || c == '\r' || c == '\n' || c == '\U{0b}' then Blank
    else if c == '|' then Bar
    else if c == '(' then LParen
    else if c == ')' then RParen
    else if c == ';' then Semi
    else if c == '&' then Amp
    else if c == '<' then Lt
    else if c == '>' then Gt
    else Word
  }

  // ---- Tokens ----

  function At(s: string, i: nat): Class { if i < |s| then ClassOf(s[i]) else Nul }

  // The first place from i on that is not white space.
  function Skip(s: string, i: nat): (j: nat)
    requires i <= |s|
    ensures i <= j <= |s| && At(s, j) != Blank
    decreases |s| - i
  {
    if At(s, i) == Blank then Skip(s, i + 1) else i
  }

  predicate InWord(s: string, k: nat) { At(s, k) == Word }

  // The end of the word that starts at i.
  function WordEnd(s: string, i: nat): (j: nat)
    requires i <= |s|
    ensures i <= j <= |s| && At(s, j) != Word && forall k {:trigger InWord(s, k)} :: i <= k < j ==> InWord(s, k)
    decreases |s| - i
  {
    if At(s, i) == Word then WordEnd(s, i + 1) else i
  }

  datatype Token = Token(kind: Class, w: Span)

  function Tok(s: string, i: nat): (t: Token)
    requires i <= |s|
    ensures i <= t.w.q <= t.w.eq <= |s| && (t.kind != Nul ==> t.w.q < t.w.eq) && t.kind != Blank
  {
    var q := Skip(s, i);
    var c := At(s, q);
    if c == Nul then Token(Nul, Span(q, q))
    else if c == Word then Token(Word, Span(q, WordEnd(s, q)))
    else if c == Gt && At(s, q + 1) == Gt then Token(Append, Span(q, q + 2))
    else Token(c, Span(q, q + 1))
  }

  function Tokens(s: string, i: nat): seq<Token>
    requires i <= |s|
    decreases |s| - i
  {
    var t := Tok(s, i);
    if t.kind == Nul then [] else [t] + Tokens(s, t.w.eq)
  }

  // ---- The grammar, on tokens ----

  function Kind(ts: seq<Token>, n: nat): Class { if n < |ts| then ts[n].kind else Nul }

  predicate RedirToken(c: Class) { c == Lt || c == Gt || c == Append }

  // Where a simple command ends.
  predicate EndToken(c: Class) { c == Bar || c == RParen || c == Amp || c == Semi }

  function NewRedir<W>(c: Cmd<W>, file: W, kind: Class): Cmd<W> {
    if kind == Lt then Redir(c, file, O_RDONLY, 0)
    else if kind == Gt then Redir(c, file, O_WRITE, 1)
    else Redir(c, file, O_APPEND, 1)
  }

  // The exec node is the one below all redirections; parseexec keeps filling it in after they point at it.
  function AddArg<W>(c: Cmd<W>, w: W): Cmd<W> {
    match c
    case Exec(args) => Exec(args + [w])
    case Redir(sub, file, mode, fd) => Redir(AddArg(sub, w), file, mode, fd)
    case _ => c
  }

  function Redirs(ts: seq<Token>, n: nat, c: Cmd<Span>): (r: Out)
    requires n <= |ts|
    ensures r.Ok? ==> n <= r.pos <= |ts|
    decreases |ts| - n
  {
    if !RedirToken(Kind(ts, n)) then Ok(c, n)
    else if Kind(ts, n + 1) != Word then Fail(MissingFile)
    else Redirs(ts, n + 2, NewRedir(c, ts[n + 1].w, Kind(ts, n)))
  }

  function Args(ts: seq<Token>, n: nat, c: Cmd<Span>, argc: nat): (r: Out)
    requires n <= |ts|
    ensures r.Ok? ==> n <= r.pos <= |ts|
    decreases |ts| - n
  {
    if EndToken(Kind(ts, n)) || Kind(ts, n) == Nul then Ok(c, n)
    else if Kind(ts, n) != Word then Fail(Syntax)
    else if argc + 1 >= MAXARGS then Fail(TooManyArgs)
    else
      var r := Redirs(ts, n + 1, AddArg(c, ts[n].w));
      if r.Fail? then r else Args(ts, r.pos, r.value, argc + 1)
  }

  function ExecAt(ts: seq<Token>, n: nat): (r: Out)
    requires n <= |ts|
    ensures r.Ok? ==> n <= r.pos <= |ts|
    decreases |ts| - n, 1
  {
    if Kind(ts, n) == LParen then BlockAt(ts, n)
    else
      var r := Redirs(ts, n, Exec([]));
      if r.Fail? then r else Args(ts, r.pos, r.value, 0)
  }

  function BlockAt(ts: seq<Token>, n: nat): (r: Out)
    requires n <= |ts|
    ensures r.Ok? ==> n <= r.pos <= |ts|
    decreases |ts| - n, 0
  {
    if Kind(ts, n) != LParen then Fail(Syntax)
    else
      var r := LineAt(ts, n + 1);
      if r.Fail? then r
      else if Kind(ts, r.pos) != RParen then Fail(MissingParen)
      else Redirs(ts, r.pos + 1, r.value)
  }

  function PipeAt(ts: seq<Token>, n: nat): (r: Out)
    requires n <= |ts|
    ensures r.Ok? ==> n <= r.pos <= |ts|
    decreases |ts| - n, 2
  {
    var r := ExecAt(ts, n);
    if r.Fail? || Kind(ts, r.pos) != Bar then r
    else
      var right := PipeAt(ts, r.pos + 1);
      if right.Fail? then right else Ok(Pipe(r.value, right.value), right.pos)
  }

  function Backs(ts: seq<Token>, n: nat, c: Cmd<Span>): (r: Out)
    requires n <= |ts|
    ensures r.Ok? && n <= r.pos <= |ts|
    decreases |ts| - n
  {
    if Kind(ts, n) == Amp then Backs(ts, n + 1, Back(c)) else Ok(c, n)
  }

  function LineAt(ts: seq<Token>, n: nat): (r: Out)
    requires n <= |ts|
    ensures r.Ok? ==> n <= r.pos <= |ts|
    decreases |ts| - n, 3
  {
    var first := PipeAt(ts, n);
    if first.Fail? then first
    else
      var r := Backs(ts, first.pos, first.value);
      if Kind(ts, r.pos) != Semi then r
      else
        var rest := LineAt(ts, r.pos + 1);
        if rest.Fail? then rest else Ok(List(r.value, rest.value), rest.pos)
  }

  // The whole line.
  function Parse(ts: seq<Token>): Out {
    var r := LineAt(ts, 0);
    if r.Ok? && r.pos != |ts| then Fail(Syntax) else r
  }

  // ---- Printing ----

  predicate LegalWord(w: string) {
    w != [] && forall k :: 0 <= k < |w| ==> ClassOf(w[k]) == Word
  }

  /** The trees that the parser can build: words it can read, at most nine arguments, its own redirection modes. */
  predicate Legal(c: Cmd<string>) {
    match c
    case Exec(args) => |args| < MAXARGS && forall k :: 0 <= k < |args| ==> LegalWord(args[k])
    case Redir(sub, file, mode, fd) => Legal(sub) && LegalWord(file) &&
      (mode, fd) in [(O_RDONLY, 0), (O_WRITE, 1), (O_APPEND, 1)]
    case Pipe(l, r) => Legal(l) && Legal(r)
    case List(l, r) => Legal(l) && Legal(r)
    case Back(sub) => Legal(sub)
  }

  function InParens(p: seq<string>): seq<string> {
    ["("] + p + [")"]
  }

  function OpText(mode: int): string {
    if mode == O_RDONLY then "<" else if mode == O_WRITE then ">" else ">>"
  }

  /** The words and symbols of a command, with every operand in parentheses. */
  function Pieces(c: Cmd<string>): seq<string> {
    match c
    case Exec(args) => args
    case Redir(sub, file, mode, _) => InParens(Pieces(sub)) + [OpText(mode), file]
    case Pipe(l, r) => InParens(Pieces(l)) + (["|"] + InParens(Pieces(r)))
    case List(l, r) => InParens(Pieces(l)) + ([";"] + InParens(Pieces(r)))
    case Back(sub) => InParens(Pieces(sub)) + ["&"]
  }

  function Spaced(ps: seq<string>): string {
    if ps == [] then [] else ps[0] + " " + Spaced(ps[1..])
  }

  function Print(c: Cmd<string>): string {
    Spaced(Pieces(c))
  }

  // The text that a span stands for.
  function Text(s: string, w: Span): string {
    if w.q <= w.eq <= |s| then s[w.q..w.eq] else ""
  }

  function Texts(s: string, ws: seq<Span>): seq<string> {
    seq(|ws|, k requires 0 <= k < |ws| => Text(s, ws[k]))
  }

  /** The command with the texts of its words. */
  function Words(s: string, c: Cmd<Span>): Cmd<string> {
    match c
    case Exec(args) => Exec(Texts(s, args))
    case Redir(sub, file, mode, fd) => Redir(Words(s, sub), Text(s, file), mode, fd)
    case Pipe(l, r) => Pipe(Words(s, l), Words(s, r))
    case List(l, r) => List(Words(s, l), Words(s, r))
    case Back(sub) => Back(Words(s, sub))
  }

  // ---- Parsing the tokens of a printed command ----

  function PieceKind(p: string): Class {
    if p == [] then Nul else if p == ">>" then Append else ClassOf(p[0])
  }

  // Token n of ts is the piece p.
  ghost predicate Shows(s: string, ts: seq<Token>, n: nat, p: string) {
    n < |ts| && ts[n].kind == PieceKind(p) && Text(s, ts[n].w) == p
  }

  // The tokens from n on begin with the pieces ps.
  ghost predicate ShowsAll(s: string, ts: seq<Token>, n: nat, ps: seq<string>) {
    n + |ps| <= |ts| && forall k {:trigger ps[k]} :: 0 <= k < |ps| ==> Shows(s, ts, n + k, ps[k])
  }

  lemma ShowsBoth(s: string, ts: seq<Token>, n: nat, ps: seq<string>, qs: seq<string>)
    requires ShowsAll(s, ts, n, ps + qs)
    ensures ShowsAll(s, ts, n, ps) && ShowsAll(s, ts, n + |ps|, qs)
  {
    forall k | 0 <= k < |ps| ensures Shows(s, ts, n + k, ps[k]) {
      assert (ps + qs)[k] == ps[k];
    }
    forall k | 0 <= k < |qs| ensures Shows(s, ts, n + |ps| + k, qs[k]) {
      assert (ps + qs)[|ps| + k] == qs[k];
    }
  }

  // A command may end before token n.
  predicate Stops(ts: seq<Token>, n: nat) {
    Kind(ts, n) == Nul || Kind(ts, n) == RParen
  }

  // r is the command c, and ends before token e.
  ghost predicate Reads(s: string, r: Out, e: nat, c: Cmd<string>) {
    r.Ok? && r.pos == e && Words(s, r.value) == c
  }

  lemma RedirsNone(ts: seq<Token>, n: nat, c: Cmd<Span>)
    requires n <= |ts| && !RedirToken(Kind(ts, n))
    ensures Redirs(ts, n, c) == Ok(c, n)
  {
  }

  lemma ArgsOne(ts: seq<Token>, n: nat, read: seq<Span>)
    requires n < |ts| && ts[n].kind == Word && !RedirToken(Kind(ts, n + 1)) && |read| + 1 < MAXARGS
    ensures Args(ts, n, Exec(read), |read|) == Args(ts, n + 1, Exec(read + [ts[n].w]), |read| + 1)
  {
    RedirsNone(ts, n + 1, Exec(read + [ts[n].w]));
  }

  // The kind of the token that shows a legal word, or ends the arguments.
  lemma NextArg(s: string, ts: seq<Token>, n: nat, args: seq<string>)
    requires ShowsAll(s, ts, n, args) && Stops(ts, n + |args|) && forall k :: 0 <= k < |args| ==> LegalWord(args[k])
    ensures if args == [] then Stops(ts, n) else n < |ts| && ts[n].kind == Word && Text(s, ts[n].w) == args[0]
  {
    if args != [] {
      assert Shows(s, ts, n + 0, args[0]);
      WordKind(args[0]);
    }
  }

  lemma FirstArg(s: string, ts: seq<Token>, n: nat, args: seq<string>)
    requires args != [] && ShowsAll(s, ts, n, args) && Stops(ts, n + |args|)
    requires forall k :: 0 <= k < |args| ==> LegalWord(args[k])
    ensures ts[n].kind == Word && Text(s, ts[n].w) == args[0] && !RedirToken(Kind(ts, n + 1))
    ensures ShowsAll(s, ts, n + 1, args[1..])
  {
    NextArg(s, ts, n, args);
    assert args == [args[0]] + args[1..];
    ShowsBoth(s, ts, n, [args[0]], args[1..]);
    NextArg(s, ts, n + 1, args[1..]);
  }

  lemma WordKind(w: string)
    requires LegalWord(w)
    ensures PieceKind(w) == Word
  {
    assert ClassOf(w[0]) == Word;
  }

  lemma MoreTexts(s: string, read: seq<Span>, w: Span, args: seq<string>)
    requires args != [] && Text(s, w) == args[0]
    ensures Texts(s, read + [w]) + args[1..] == Texts(s, read) + args
  {
  }

  lemma {:induction false} ArgsRoundTrip(s: string, ts: seq<Token>, n: nat, args: seq<string>, read: seq<Span>)
    requires ShowsAll(s, ts, n, args) && Stops(ts, n + |args|) && |read| + |args| < MAXARGS
    requires forall k :: 0 <= k < |args| ==> LegalWord(args[k])
    ensures Reads(s, Args(ts, n, Exec(read), |read|), n + |args|, Exec(Texts(s, read) + args))
    decreases |args|
  {
    if args == [] {
      assert Texts(s, read) + args == Texts(s, read);
    } else {
      FirstArg(s, ts, n, args);
      ArgsOne(ts, n, read);
      ArgsRoundTrip(s, ts, n + 1, args[1..], read + [ts[n].w]);
      MoreTexts(s, read, ts[n].w, args);
    }
  }

  lemma ExecRoundTrip(s: string, ts: seq<Token>, n: nat, args: seq<string>)
    requires Legal(Exec(args)) && ShowsAll(s, ts, n, args) && Stops(ts, n + |args|)
    ensures Reads(s, ExecAt(ts, n), n + |args|, Exec(args))
  {
    NextArg(s, ts, n, args);
    RedirsNone(ts, n, Exec([]));
    ArgsRoundTrip(s, ts, n, args, []);
    assert Texts(s, []) + args == args;
  }

  // Steps of the parser where the tokens and the results of the calls are known.

  lemma BlockIs(ts: seq<Token>, n: nat, v: Cmd<Span>, k: nat)
    requires n < k < |ts| && ts[n].kind == LParen && LineAt(ts, n + 1) == Ok(v, k) && ts[k].kind == RParen
    ensures ExecAt(ts, n) == Redirs(ts, k + 1, v)
  {
    assert ExecAt(ts, n) == BlockAt(ts, n);
  }

  lemma LineNone(ts: seq<Token>, n: nat, v: Cmd<Span>, k: nat)
    requires n <= k <= |ts| && ExecAt(ts, n) == Ok(v, k) && Stops(ts, k)
    ensures PipeAt(ts, n) == LineAt(ts, n) == Ok(v, k)
  {
  }

  lemma LinePipe(ts: seq<Token>, n: nat, v: Cmd<Span>, k: nat, w: Cmd<Span>, e: nat)
    requires n <= k < e <= |ts| && ExecAt(ts, n) == Ok(v, k) && ts[k].kind == Bar && ExecAt(ts, k + 1) == Ok(w, e)
    requires Stops(ts, e)
    ensures LineAt(ts, n) == Ok(Pipe(v, w), e)
  {
    LineNone(ts, k + 1, w, e);
    assert PipeAt(ts, n) == Ok(Pipe(v, w), e);
  }

  lemma LineList(ts: seq<Token>, n: nat, v: Cmd<Span>, k: nat, w: Cmd<Span>, e: nat)
    requires n <= k < e <= |ts| && ExecAt(ts, n) == Ok(v, k) && ts[k].kind == Semi && ExecAt(ts, k + 1) == Ok(w, e)
    requires Stops(ts, e)
    ensures LineAt(ts, n) == Ok(List(v, w), e)
  {
    LineNone(ts, k + 1, w, e);
    assert PipeAt(ts, n) == Ok(v, k) && Backs(ts, k, v) == Ok(v, k);
  }

  lemma LineBack(ts: seq<Token>, n: nat, v: Cmd<Span>, k: nat)
    requires n <= k < |ts| && ExecAt(ts, n) == Ok(v, k) && ts[k].kind == Amp && Stops(ts, k + 1)
    ensures LineAt(ts, n) == Ok(Back(v), k + 1)
  {
    assert PipeAt(ts, n) == Ok(v, k) && Backs(ts, k + 1, Back(v)) == Ok(Back(v), k + 1);
  }

  lemma RedirOne(s: string, ts: seq<Token>, n: nat, v: Cmd<Span>, c: Cmd<string>)
    requires c.Redir? && Legal(c) && ShowsAll(s, ts, n, [OpText(c.mode), c.file]) && Stops(ts, n + 2)
    requires Words(s, v) == c.cmd
    ensures Reads(s, Redirs(ts, n, v), n + 2, c)
  {
    var ps := [OpText(c.mode), c.file];
    assert Shows(s, ts, n + 0, ps[0]) && Shows(s, ts, n + 1, ps[1]);
    WordKind(c.file);
    RedirsNone(ts, n + 2, NewRedir(v, ts[n + 1].w, ts[n].kind));
  }

  // A command in parentheses.
  lemma {:induction false} BlockRoundTrip(s: string, ts: seq<Token>, n: nat, c: Cmd<string>) returns (v: Cmd<Span>)
    requires Legal(c) && ShowsAll(s, ts, n, InParens(Pieces(c)))
    ensures Words(s, v) == c && ExecAt(ts, n) == Redirs(ts, n + 2 + |Pieces(c)|, v)
    decreases c, 3
  {
    var ps := Pieces(c);
    assert InParens(ps) == ["("] + (ps + [")"]);
    ShowsBoth(s, ts, n, ["("], ps + [")"]);
    ShowsBoth(s, ts, n + 1, ps, [")"]);
    assert Shows(s, ts, n + 0, ["("][0]) && Shows(s, ts, n + 1 + |ps| + 0, [")"][0]);
    LineRoundTrip(s, ts, n + 1, c);
    v := LineAt(ts, n + 1).value;
    BlockIs(ts, n, v, n + 1 + |ps|);
  }

  // The same where no redirection follows.
  lemma {:induction false} OperandRoundTrip(s: string, ts: seq<Token>, n: nat, c: Cmd<string>, e: nat)
    returns (v: Cmd<Span>)
    requires Legal(c) && ShowsAll(s, ts, n, InParens(Pieces(c))) && e == n + |InParens(Pieces(c))|
    requires !RedirToken(Kind(ts, e))
    ensures Words(s, v) == c && ExecAt(ts, n) == Ok(v, e)
    decreases c, 4
  {
    v := BlockRoundTrip(s, ts, n, c);
    RedirsNone(ts, e, v);
  }

  lemma {:induction false} RedirRoundTrip(s: string, ts: seq<Token>, n: nat, c: Cmd<string>)
    requires c.Redir? && Legal(c) && ShowsAll(s, ts, n, Pieces(c)) && Stops(ts, n + |Pieces(c)|)
    ensures Reads(s, LineAt(ts, n), n + |Pieces(c)|, c)
    decreases c, 0
  {
    var p := InParens(Pieces(c.cmd));
    ShowsBoth(s, ts, n, p, [OpText(c.mode), c.file]);
    var v := BlockRoundTrip(s, ts, n, c.cmd);
    RedirOne(s, ts, n + |p|, v, c);
    LineNone(ts, n, ExecAt(ts, n).value, n + |Pieces(c)|);
  }

  lemma TwoShown(s: string, ts: seq<Token>, n: nat, c: Cmd<string>) returns (k: nat)
    requires (c.Pipe? || c.List?) && ShowsAll(s, ts, n, Pieces(c))
    ensures var p, q := InParens(Pieces(c.left)), InParens(Pieces(c.right));
            && k == n + |p| && n + |Pieces(c)| == k + 1 + |q| <= |ts| && ShowsAll(s, ts, n, p)
            && ShowsAll(s, ts, k + 1, q)
            && ts[k].kind == (if c.Pipe? then Bar else Semi)
  {
    var p, q := InParens(Pieces(c.left)), InParens(Pieces(c.right));
    var op := if c.Pipe? then "|" else ";";
    k := n + |p|;
    ShowsThree(s, ts, n, p, op, q);
  }

  lemma ShowsThree(s: string, ts: seq<Token>, n: nat, p: seq<string>, op: string, q: seq<string>)
    requires ShowsAll(s, ts, n, p + ([op] + q))
    ensures n + |p| + 1 + |q| <= |ts| && ShowsAll(s, ts, n, p) && Shows(s, ts, n + |p|, op)
    ensures ShowsAll(s, ts, n + |p| + 1, q)
  {
    ShowsBoth(s, ts, n, p, [op] + q);
    ShowsBoth(s, ts, n + |p|, [op], q);
    assert Shows(s, ts, n + |p| + 0, [op][0]);
  }

  // Two operands with a symbol between them, at k.
  lemma {:induction false} TwoRoundTrip(s: string, ts: seq<Token>, n: nat, c: Cmd<string>)
    returns (v: Cmd<Span>, k: nat, w: Cmd<Span>)
    requires (c.Pipe? || c.List?) && Legal(c) && ShowsAll(s, ts, n, Pieces(c)) && Stops(ts, n + |Pieces(c)|)
    ensures n <= k < n + |Pieces(c)| && ts[k].kind == (if c.Pipe? then Bar else Semi)
    ensures Words(s, v) == c.left && Words(s, w) == c.right
    ensures ExecAt(ts, n) == Ok(v, k) && ExecAt(ts, k + 1) == Ok(w, n + |Pieces(c)|)
    decreases c, 0
  {
    k := TwoShown(s, ts, n, c);
    v := OperandRoundTrip(s, ts, n, c.left, k);
    w := OperandRoundTrip(s, ts, k + 1, c.right, n + |Pieces(c)|);
  }

  lemma {:induction false} PipeRoundTrip(s: string, ts: seq<Token>, n: nat, c: Cmd<string>)
    requires c.Pipe? && Legal(c) && ShowsAll(s, ts, n, Pieces(c)) && Stops(ts, n + |Pieces(c)|)
    ensures Reads(s, LineAt(ts, n), n + |Pieces(c)|, c)
    decreases c, 1
  {
    var v, k, w := TwoRoundTrip(s, ts, n, c);
    LinePipe(ts, n, v, k, w, n + |Pieces(c)|);
  }

  lemma {:induction false} ListRoundTrip(s: string, ts: seq<Token>, n: nat, c: Cmd<string>)
    requires c.List? && Legal(c) && ShowsAll(s, ts, n, Pieces(c)) && Stops(ts, n + |Pieces(c)|)
    ensures Reads(s, LineAt(ts, n), n + |Pieces(c)|, c)
    decreases c, 1
  {
    var v, k, w := TwoRoundTrip(s, ts, n, c);
    LineList(ts, n, v, k, w, n + |Pieces(c)|);
  }

  lemma {:induction false} BackRoundTrip(s: string, ts: seq<Token>, n: nat, c: Cmd<string>)
    requires c.Back? && Legal(c) && ShowsAll(s, ts, n, Pieces(c)) && Stops(ts, n + |Pieces(c)|)
    ensures Reads(s, LineAt(ts, n), n + |Pieces(c)|, c)
    decreases c, 0
  {
    var p := InParens(Pieces(c.cmd));
    ShowsBoth(s, ts, n, p, ["&"]);
    assert Shows(s, ts, n + |p| + 0, ["&"][0]);
    var v := OperandRoundTrip(s, ts, n, c.cmd, n + |p|);
    LineBack(ts, n, v, n + |p|);
  }

  /** Parsing the pieces of a printed command gives it back. */
  lemma {:induction false} LineRoundTrip(s: string, ts: seq<Token>, n: nat, c: Cmd<string>)
    requires Legal(c) && ShowsAll(s, ts, n, Pieces(c)) && Stops(ts, n + |Pieces(c)|)
    ensures Reads(s, LineAt(ts, n), n + |Pieces(c)|, c)
    decreases c, 2
  {
    match c
    case Exec(args) =>
      ExecRoundTrip(s, ts, n, args);
      LineNone(ts, n, ExecAt(ts, n).value, n + |args|);
    case Redir(_, _, _, _) =>
      RedirRoundTrip(s, ts, n, c);
    case Pipe(_, _) =>
      PipeRoundTrip(s, ts, n, c);
    case List(_, _) =>
      ListRoundTrip(s, ts, n, c);
    case Back(_) =>
      BackRoundTrip(s, ts, n, c);
  }

  // ---- The tokens of a printed command ----

  predicate LegalPiece(p: string) {
    LegalWord(p) || p in ["(", ")", "|", ";", "&", "<", ">", ">>"]
  }

  predicate LegalPieces(ps: seq<string>) {
    forall k :: 0 <= k < |ps| ==> LegalPiece(ps[k])
  }

  lemma {:induction false} PiecesLegal(c: Cmd<string>)
    requires Legal(c)
    ensures LegalPieces(Pieces(c))
  {
    match c
    case Exec(_) =>
    case Redir(sub, _, _, _) => PiecesLegal(sub);
    case Pipe(l, r) => PiecesLegal(l); PiecesLegal(r);
    case List(l, r) => PiecesLegal(l); PiecesLegal(r);
    case Back(sub) => PiecesLegal(sub);
  }

  lemma {:induction false} WordEndIs(s: string, i: nat, e: nat)
    requires i <= e <= |s| && At(s, e) != Word && forall k :: i <= k < e ==> At(s, k) == Word
    ensures WordEnd(s, i) == e
    decreases e - i
  {
    if i < e {
      WordEndIs(s, i + 1, e);
    }
  }

  lemma TokOfPiece(s: string, i: nat, p: string)
    requires LegalPiece(p) && i + |p| < |s| && s[i..i + |p|] == p && s[i + |p|] == ' '
    ensures Tok(s, i) == Token(PieceKind(p), Span(i, i + |p|)) && Text(s, Span(i, i + |p|)) == p
  {
    assert forall k :: 0 <= k < |p| ==> s[i + k] == s[i..i + |p|][k] == p[k];
    assert s[i] == p[0] && (|p| == 2 ==> s[i + 1] == p[1]);
    if LegalWord(p) {
      WordKind(p);
      forall k | i <= k < i + |p| ensures At(s, k) == Word {
        assert s[i + (k - i)] == p[k - i];
      }
      WordEndIs(s, i, i + |p|);
    }
  }

  lemma TokensBlank(s: string, i: nat)
    requires i < |s| && s[i] == ' '
    ensures Tokens(s, i) == Tokens(s, i + 1)
  {
    assert Skip(s, i) == Skip(s, i + 1);
  }

  lemma TokensFirst(s: string, i: nat, p: string, e: nat)
    requires LegalPiece(p) && i <= e == i + |p| < |s| && s[i..e] == p && s[e] == ' '
    ensures Tokens(s, i) == [Token(PieceKind(p), Span(i, e))] + Tokens(s, e + 1) && Text(s, Span(i, e)) == p
  {
    TokOfPiece(s, i, p);
    TokensBlank(s, e);
  }

  lemma SpacedFirst(s: string, i: nat, ps: seq<string>, e: nat)
    requires i <= |s| && ps != [] && s[i..] == Spaced(ps) && LegalPieces(ps) && e == i + |ps[0]|
    ensures e < |s| && s[i..e] == ps[0] && s[e] == ' ' && s[e + 1..] == Spaced(ps[1..]) && LegalPiece(ps[0])
    ensures LegalPieces(ps[1..])
  {
    var p := ps[0];
    assert s[i..] == p + " " + Spaced(ps[1..]);
    assert s[i..e] == s[i..][..|p|] == p;
    assert s[e] == s[i..][|p|] == ' ';
    assert s[e + 1..] == s[i..][|p| + 1..] == Spaced(ps[1..]);
  }

  // The tokens from place i on are the pieces ps.
  ghost predicate Lexes(s: string, i: nat, ps: seq<string>) {
    i <= |s| && |Tokens(s, i)| == |ps| && ShowsAll(s, Tokens(s, i), 0, ps)
  }

  lemma LexesFirst(s: string, i: nat, ps: seq<string>, e: nat)
    requires ps != [] && LegalPiece(ps[0]) && i <= e == i + |ps[0]| < |s| && s[i..e] == ps[0] && s[e] == ' '
    requires Lexes(s, e + 1, ps[1..])
    ensures Lexes(s, i, ps)
  {
    TokensFirst(s, i, ps[0], e);
    ShowsFirst(s, Token(PieceKind(ps[0]), Span(i, e)), Tokens(s, e + 1), ps);
  }

  lemma {:induction false} TokensOf(s: string, i: nat, ps: seq<string>)
    requires i <= |s| && s[i..] == Spaced(ps) && LegalPieces(ps)
    ensures Lexes(s, i, ps)
    decreases |ps|
  {
    if ps == [] {
      assert |s[i..]| == 0;
    } else {
      var e := i + |ps[0]|;
      SpacedFirst(s, i, ps, e);
      TokensOf(s, e + 1, ps[1..]);
      LexesFirst(s, i, ps, e);
    }
  }

  lemma ShowsFirst(s: string, t: Token, ts: seq<Token>, ps: seq<string>)
    requires ps != [] && t.kind == PieceKind(ps[0]) && Text(s, t.w) == ps[0] && ShowsAll(s, ts, 0, ps[1..])
    ensures ShowsAll(s, [t] + ts, 0, ps)
  {
    forall k | 0 <= k < |ps| ensures Shows(s, [t] + ts, k, ps[k]) {
      if k > 0 {
        assert Shows(s, ts, 0 + (k - 1), ps[1..][k - 1]);
      }
    }
  }

  /** Parsing the printing of a command gives the command back. */
  lemma RoundTrip(c: Cmd<string>)
    requires Legal(c)
    ensures var s := Print(c); var r := Parse(Tokens(s, 0)); r.Ok? && Words(s, r.value) == c
  {
    var s, ps := Print(c), Pieces(c);
    PiecesLegal(c);
    assert s[0..] == s;
    TokensOf(s, 0, ps);
    LineRoundTrip(s, Tokens(s, 0), 0, c);
  }
}
