/**
 The functions of platform/visionfive2/user/sh.c that parse a line: they read the characters with a cursor, and return
 what Shell defines on the tokens of the line. nulterminate then writes the ends of the words into the buffer.
 */
module ShellParser {
  import opened Shell

  // ---- The cursor and the tokens ----

  ghost predicate NoNul(s: string) {
    forall k :: 0 <= k < |s| ==> s[k] != '\0'
  }

  // Where token n starts; past the last one, the end of the line.
  function Start(s: string, ts: seq<Token>, n: nat): nat {
    if n < |ts| then ts[n].w.q else |s|
  }

  // Token n is read at its start, and the next one starts after it.
  ghost predicate Lexed(s: string, ts: seq<Token>, n: nat) {
    && n < |ts| && ts[n].w.q <= ts[n].w.eq <= |s| && ts[n].kind != Nul && ts[n] == Tok(s, ts[n].w.q)
    && Skip(s, ts[n].w.eq) == Start(s, ts, n + 1)
  }

  // ts are the tokens of the line from some place on.
  ghost predicate AllLexed(s: string, ts: seq<Token>) {
    NoNul(s) && forall n {:trigger Lexed(s, ts, n)} :: 0 <= n < |ts| ==> Lexed(s, ts, n)
  }

  // The next token at place i is token n.
  ghost predicate Aligned(s: string, i: nat, ts: seq<Token>, n: nat) {
    i <= |s| && n <= |ts| && Skip(s, i) == Start(s, ts, n)
  }

  lemma {:induction false} TokensLexed(s: string, i: nat)
    requires NoNul(s) && i <= |s|
    ensures AllLexed(s, Tokens(s, i)) && Aligned(s, i, Tokens(s, i), 0)
    decreases |s| - i
  {
    var t, ts := Tok(s, i), Tokens(s, i);
    SkipTwice(s, i);
    if t.kind != Nul {
      var rest := Tokens(s, t.w.eq);
      TokensLexed(s, t.w.eq);
      forall n | 0 <= n < |ts| ensures Lexed(s, ts, n) {
        if n > 0 {
          assert Lexed(s, rest, n - 1);
        }
      }
    }
  }

  lemma SkipTwice(s: string, i: nat)
    requires i <= |s|
    ensures Skip(s, Skip(s, i)) == Skip(s, i) && Tok(s, Skip(s, i)) == Tok(s, i)
  {
  }

  lemma AlignedNext(s: string, i: nat, ts: seq<Token>, n: nat)
    requires AllLexed(s, ts) && Aligned(s, i, ts, n)
    ensures Aligned(s, Skip(s, i), ts, n) && Kind(ts, n) == Tok(s, i).kind
    ensures Kind(ts, n) != Nul ==> n < |ts| && ts[n] == Tok(s, i) && Aligned(s, Skip(s, ts[n].w.eq), ts, n + 1)
  {
    SkipTwice(s, i);
    if n < |ts| {
      assert Lexed(s, ts, n);
      SkipTwice(s, ts[n].w.eq);
    }
  }

  // w is a word of the line, and does not go on after its end.
  ghost predicate IsWord(s: string, w: Span) {
    w.q < w.eq <= |s| && At(s, w.eq) != Word && forall k {:trigger InWord(s, k)} :: w.q <= k < w.eq ==> InWord(s, k)
  }

  ghost predicate AllWords(s: string, c: Cmd<Span>) {
    match c
    case Exec(args) => forall k :: 0 <= k < |args| ==> IsWord(s, args[k])
    case Redir(sub, file, _, _) => AllWords(s, sub) && IsWord(s, file)
    case Pipe(l, r) => AllWords(s, l) && AllWords(s, r)
    case List(l, r) => AllWords(s, l) && AllWords(s, r)
    case Back(sub) => AllWords(s, sub)
  }

  lemma {:induction false} AddArgWords(s: string, c: Cmd<Span>, w: Span)
    requires AllWords(s, c) && IsWord(s, w)
    ensures AllWords(s, AddArg(c, w))
  {
    match c
    case Redir(sub, _, _, _) => AddArgWords(s, sub, w);
    case _ =>
  }

  // What a parse function returns from the line: the same as from its tokens, with the cursor where the tokens end.
  ghost predicate Same(s: string, r: Out, ts: seq<Token>, q: Out) {
    if r.Fail? then q == r
    else q.Ok? && r.value == q.value && Aligned(s, r.pos, ts, q.pos) && AllWords(s, r.value)
  }

  // ---- The scanner ----

  method SkipBlanks(s: string, i: nat) returns (p: nat)
    requires i <= |s|
    ensures p == Skip(s, i)
  {
    p := i;
    while p < |s| && s[p] in " \t\r\n\U{0b}"
      invariant i <= p <= |s| && Skip(s, i) == Skip(s, p)
    {
      p := p + 1;
    }
  }

  // The first character of a token; a word is never looked for.
  function FirstChar(k: Class): char {
    match k
    case Nul => '\0'
    case Blank => ' '
    case Bar => '|'
    case LParen => '('
    case RParen => ')'
    case Semi => ';'
    case Amp => '&'
    case Lt => '<'
    case Gt => '>'
    case Append => '>'
    case Word => 'a'
  }

  ghost predicate Symbols(toks: string) {
    forall k :: 0 <= k < |toks| ==> ClassOf(toks[k]) !in {Nul, Blank, Word}
  }

  method Peek(s: string, i: nat, toks: string, ghost ts: seq<Token>, ghost n: nat) returns (p: nat, found: bool)
    requires AllLexed(s, ts) && Aligned(s, i, ts, n) && Symbols(toks)
    ensures Aligned(s, p, ts, n) && p == Skip(s, i) && (found <==> FirstChar(Kind(ts, n)) in toks)
  {
    AlignedNext(s, i, ts, n);
    p := SkipBlanks(s, i);
    found := p < |s| && s[p] in toks;
  }

  method GetToken(s: string, i: nat, ghost ts: seq<Token>, ghost n: nat) returns (t: Token, pos: nat)
    requires AllLexed(s, ts) && Aligned(s, i, ts, n)
    ensures t.kind == Kind(ts, n) && Aligned(s, pos, ts, if t.kind == Nul then n else n + 1)
    ensures t.kind != Nul ==> ts[n] == t
    ensures t.kind == Word ==> IsWord(s, t.w)
  {
    AlignedNext(s, i, ts, n);
    t := Scan(s, i);
    pos := SkipBlanks(s, t.w.eq);
    SkipTwice(s, i);
  }

  // gettoken, up to the white space after the token.
  method Scan(s: string, i: nat) returns (t: Token)
    requires i <= |s| && NoNul(s)
    ensures t == Tok(s, i) && (t.kind == Word ==> IsWord(s, t.w))
  {
    var q := SkipBlanks(s, i);
    var eq := q;
    var kind := Nul;
    if q == |s| {
    } else if s[q] in "|();&<" {
      kind := ClassOf(s[q]);
      eq := q + 1;
    } else if s[q] == '>' {
      kind := Gt;
      eq := q + 1;
      if eq < |s| && s[eq] == '>' {
        kind := Append;
        eq := eq + 1;
      }
    } else {
      kind := Word;
      while eq < |s| && s[eq] !in " \t\r\n\U{0b}" && s[eq] !in "<|>&;()"
        invariant q <= eq <= |s| && WordEnd(s, q) == WordEnd(s, eq)
      {
        eq := eq + 1;
      }
    }
    t := Token(kind, Span(q, eq));
  }

  // ---- The parser ----

  method ParseRedirs(c: Cmd<Span>, s: string, i: nat, ghost ts: seq<Token>, ghost n: nat) returns (r: Out)
    requires AllLexed(s, ts) && Aligned(s, i, ts, n) && AllWords(s, c)
    ensures Same(s, r, ts, Redirs(ts, n, c))
  {
    var cmd := c;
    ghost var m := n;
    var p, more := Peek(s, i, "<>", ts, m);
    while more
      invariant Aligned(s, p, ts, m) && AllWords(s, cmd) && Redirs(ts, n, c) == Redirs(ts, m, cmd)
      invariant more == RedirToken(Kind(ts, m))
      decreases |ts| - m
    {
      r := ParseRedir(cmd, s, p, ts, m);
      if r.Fail? {
        return;
      }
      cmd := r.value;
      m := m + 2;
      p, more := Peek(s, r.pos, "<>", ts, m);
    }
    return Ok(cmd, p);
  }

  // One turn of the loop in parseredirs.
  method ParseRedir(c: Cmd<Span>, s: string, i: nat, ghost ts: seq<Token>, ghost n: nat) returns (r: Out)
    requires AllLexed(s, ts) && Aligned(s, i, ts, n) && AllWords(s, c) && RedirToken(Kind(ts, n))
    ensures r.Fail? ==> Redirs(ts, n, c) == r
    ensures r.Ok? ==>
            Aligned(s, r.pos, ts, n + 2) && AllWords(s, r.value) && Redirs(ts, n, c) == Redirs(ts, n + 2, r.value)
  {
    var op, p := GetToken(s, i, ts, n);
    var file;
    file, p := GetToken(s, p, ts, n + 1);
    if file.kind != Word {
      return Fail(MissingFile);
    }
    return Ok(NewRedir(c, file.w, op.kind), p);
  }

  method ParseExec(s: string, i: nat, ghost ts: seq<Token>, ghost n: nat) returns (r: Out)
    requires AllLexed(s, ts) && Aligned(s, i, ts, n)
    ensures Same(s, r, ts, ExecAt(ts, n))
    decreases |ts| - n, 1
  {
    var p, block := Peek(s, i, "(", ts, n);
    if block {
      r := ParseBlock(s, p, ts, n);
      return;
    }
    r := ParseRedirs(Exec([]), s, p, ts, n);
    if r.Ok? {
      ghost var first := Redirs(ts, n, Exec([]));
      r := ParseArgs(r.value, s, r.pos, ts, first.pos);
    }
  }

  // The loop of parseexec, which fills in the exec node below the redirections.
  method ParseArgs(c: Cmd<Span>, s: string, i: nat, ghost ts: seq<Token>, ghost n: nat) returns (r: Out)
    requires AllLexed(s, ts) && Aligned(s, i, ts, n) && AllWords(s, c)
    ensures Same(s, r, ts, Args(ts, n, c, 0))
  {
    var argc := 0;
    ghost var m := n;
    var p, end := PeekEnd(s, i, ts, m);
    r := Ok(c, p);
    while !end
      invariant r.Ok? && Aligned(s, p, ts, m) && AllWords(s, r.value) && Args(ts, n, c, 0) == Args(ts, m, r.value, argc)
      invariant end == EndToken(Kind(ts, m))
      decreases |ts| - m
    {
      var last;
      r, last, m := ParseArg(r.value, argc, s, p, ts, m);
      if r.Fail? || last {
        return;
      }
      argc := argc + 1;
      p, end := PeekEnd(s, r.pos, ts, m);
    }
    r := Ok(r.value, p);
  }

  method PeekEnd(s: string, i: nat, ghost ts: seq<Token>, ghost n: nat) returns (p: nat, end: bool)
    requires AllLexed(s, ts) && Aligned(s, i, ts, n)
    ensures Aligned(s, p, ts, n) && end == EndToken(Kind(ts, n))
  {
    p, end := Peek(s, i, "|)&;", ts, n);
  }

  // One turn of that loop: an argument and the redirections after it, or the end of the line.
  method ParseArg(c: Cmd<Span>, argc: nat, s: string, i: nat, ghost ts: seq<Token>, ghost n: nat)
    returns (r: Out, last: bool, ghost m: nat)
    requires AllLexed(s, ts) && Aligned(s, i, ts, n) && AllWords(s, c) && !EndToken(Kind(ts, n))
    ensures r.Fail? || last ==> Same(s, r, ts, Args(ts, n, c, argc))
    ensures r.Ok? && !last ==> n < m && Aligned(s, r.pos, ts, m) && AllWords(s, r.value)
    ensures r.Ok? && !last ==> Args(ts, n, c, argc) == Args(ts, m, r.value, argc + 1)
  {
    m := n;
    var t, p := GetToken(s, i, ts, n);
    if t.kind == Nul {
      return Ok(c, p), true, n;
    }
    if t.kind != Word {
      return Fail(Syntax), false, n;
    }
    if argc + 1 >= MAXARGS {
      return Fail(TooManyArgs), false, n;
    }
    AddArgWords(s, c, t.w);
    r := ParseRedirs(AddArg(c, t.w), s, p, ts, n + 1);
    last := false;
    ghost var next := Redirs(ts, n + 1, AddArg(c, t.w));
    m := if next.Ok? then next.pos else n;
  }

  method ParseBlock(s: string, i: nat, ghost ts: seq<Token>, ghost n: nat) returns (r: Out)
    requires AllLexed(s, ts) && Aligned(s, i, ts, n)
    ensures Same(s, r, ts, BlockAt(ts, n))
    decreases |ts| - n, 0
  {
    var p, found := Peek(s, i, "(", ts, n);
    if !found {
      return Fail(Syntax);
    }
    var t;
    t, p := GetToken(s, p, ts, n);
    r := ParseLine(s, p, ts, n + 1);
    if r.Fail? {
      return;
    }
    ghost var inner := LineAt(ts, n + 1);
    p, found := Peek(s, r.pos, ")", ts, inner.pos);
    if !found {
      return Fail(MissingParen);
    }
    t, p := GetToken(s, p, ts, inner.pos);
    r := ParseRedirs(r.value, s, p, ts, inner.pos + 1);
  }

  method ParsePipe(s: string, i: nat, ghost ts: seq<Token>, ghost n: nat) returns (r: Out)
    requires AllLexed(s, ts) && Aligned(s, i, ts, n)
    ensures Same(s, r, ts, PipeAt(ts, n))
    decreases |ts| - n, 2
  {
    r := ParseExec(s, i, ts, n);
    if r.Fail? {
      return;
    }
    ghost var first := ExecAt(ts, n);
    var p, found := Peek(s, r.pos, "|", ts, first.pos);
    if !found {
      return Ok(r.value, p);
    }
    var t;
    t, p := GetToken(s, p, ts, first.pos);
    var right := ParsePipe(s, p, ts, first.pos + 1);
    if right.Fail? {
      return right;
    }
    return Ok(Pipe(r.value, right.value), right.pos);
  }

  // The loop of parseline.
  method ParseBacks(c: Cmd<Span>, s: string, i: nat, ghost ts: seq<Token>, ghost n: nat) returns (r: Out)
    requires AllLexed(s, ts) && Aligned(s, i, ts, n) && AllWords(s, c)
    ensures Same(s, r, ts, Backs(ts, n, c))
  {
    var cmd := c;
    ghost var m := n;
    var p, more := Peek(s, i, "&", ts, m);
    while more
      invariant Aligned(s, p, ts, m) && AllWords(s, cmd) && Backs(ts, n, c) == Backs(ts, m, cmd)
      invariant more == (Kind(ts, m) == Amp)
      decreases |ts| - m
    {
      var t;
      t, p := GetToken(s, p, ts, m);
      cmd := Back(cmd);
      m := m + 1;
      p, more := Peek(s, p, "&", ts, m);
    }
    return Ok(cmd, p);
  }

  method ParseLine(s: string, i: nat, ghost ts: seq<Token>, ghost n: nat) returns (r: Out)
    requires AllLexed(s, ts) && Aligned(s, i, ts, n)
    ensures Same(s, r, ts, LineAt(ts, n))
    decreases |ts| - n, 3
  {
    r := ParsePipe(s, i, ts, n);
    if r.Fail? {
      return;
    }
    ghost var first := PipeAt(ts, n);
    r := ParseBacks(r.value, s, r.pos, ts, first.pos);
    ghost var m := Backs(ts, first.pos, first.value).pos;
    var p, found := Peek(s, r.pos, ";", ts, m);
    if !found {
      return Ok(r.value, p);
    }
    var t;
    t, p := GetToken(s, p, ts, m);
    var rest := ParseLine(s, p, ts, m + 1);
    if rest.Fail? {
      return rest;
    }
    return Ok(List(r.value, rest.value), rest.pos);
  }

  // ---- nulterminate ----

  ghost function EndsOf(ws: seq<Span>): set<nat> {
    set w | w in ws :: w.eq
  }

  ghost function Ends(c: Cmd<Span>): set<nat> {
    match c
    case Exec(args) => EndsOf(args)
    case Redir(sub, file, _, _) => Ends(sub) + {file.eq}
    case Pipe(l, r) => Ends(l) + Ends(r)
    case List(l, r) => Ends(l) + Ends(r)
    case Back(sub) => Ends(sub)
  }

  // b is a, but for a NUL at each of the places in ends.
  ghost predicate Cut(a: string, b: string, ends: set<nat>) {
    |b| == |a| && forall j: nat :: j < |a| ==> b[j] == if j in ends then '\0' else a[j]
  }

  method NulTerminate(c: Cmd<Span>, buf: array<char>)
    requires forall e :: e in Ends(c) ==> e < buf.Length
    modifies buf
    ensures Cut(old(buf[..]), buf[..], Ends(c))
    decreases c
  {
    match c
    case Exec(args) =>
      for k := 0 to |args|
        invariant Cut(old(buf[..]), buf[..], EndsOf(args[..k]))
      {
        assert args[..k + 1] == args[..k] + [args[k]];
        assert args[k].eq in EndsOf(args);
        assert EndsOf(args[..k + 1]) == EndsOf(args[..k]) + {args[k].eq};
        assert args[k].eq in Ends(c);
        buf[args[k].eq] := '\0';
      }
      assert args[..|args|] == args;
    case Redir(sub, file, _, _) =>
      assert Ends(sub) <= Ends(c) && file.eq in Ends(c);
      NulTerminate(sub, buf);
      buf[file.eq] := '\0';
    case Pipe(l, r) =>
      assert Ends(l) <= Ends(c) && Ends(r) <= Ends(c);
      NulTerminate(l, buf);
      NulTerminate(r, buf);
    case List(l, r) =>
      assert Ends(l) <= Ends(c) && Ends(r) <= Ends(c);
      NulTerminate(l, buf);
      NulTerminate(r, buf);
    case Back(sub) =>
      assert Ends(sub) <= Ends(c);
      NulTerminate(sub, buf);
  }

  // The string at place q, up to the first NUL.
  function CString(b: string, q: nat): string
    decreases |b| - q
  {
    if q < |b| && b[q] != '\0' then [b[q]] + CString(b, q + 1) else []
  }

  /** The command as runcmd sees it: its words are strings in the buffer. */
  function CWords(b: string, c: Cmd<Span>): Cmd<string> {
    match c
    case Exec(args) => Exec(seq(|args|, k requires 0 <= k < |args| => CString(b, args[k].q)))
    case Redir(sub, file, mode, fd) => Redir(CWords(b, sub), CString(b, file.q), mode, fd)
    case Pipe(l, r) => Pipe(CWords(b, l), CWords(b, r))
    case List(l, r) => List(CWords(b, l), CWords(b, r))
    case Back(sub) => Back(CWords(b, sub))
  }

  lemma {:induction false} CStringIs(b: string, q: nat, e: nat)
    requires q <= e < |b| && b[e] == '\0' && forall k :: q <= k < e ==> b[k] != '\0'
    ensures CString(b, q) == b[q..e]
    decreases e - q
  {
    if q < e {
      CStringIs(b, q + 1, e);
    }
  }

  // No place where a NUL is written is inside a word.
  ghost predicate Outside(s: string, ends: set<nat>) {
    forall e :: e in ends ==> e <= |s| && At(s, e) != Word
  }

  lemma {:induction false} EndsOutside(s: string, c: Cmd<Span>)
    requires AllWords(s, c)
    ensures Outside(s, Ends(c))
  {
    match c
    case Exec(_) =>
    case Redir(sub, _, _, _) => EndsOutside(s, sub);
    case Pipe(l, r) => EndsOutside(s, l); EndsOutside(s, r);
    case List(l, r) => EndsOutside(s, l); EndsOutside(s, r);
    case Back(sub) => EndsOutside(s, sub);
  }

  lemma WordKept(s: string, a: string, b: string, ends: set<nat>, w: Span)
    requires |s| < |a| && a[..|s|] == s && Cut(a, b, ends) && Outside(s, ends) && IsWord(s, w) && w.eq in ends
    ensures CString(b, w.q) == Text(s, w)
  {
    forall k | w.q <= k < w.eq ensures b[k] == s[k] && b[k] != '\0' {
      assert InWord(s, k) && a[..|s|][k] == a[k];
    }
    CStringIs(b, w.q, w.eq);
  }

  /** Every word that the parser recorded is a string of its own after nulterminate, with none of its bytes changed. */
  lemma {:induction false} WordsKept(s: string, a: string, b: string, ends: set<nat>, c: Cmd<Span>)
    requires |s| < |a| && a[..|s|] == s && Cut(a, b, ends) && Outside(s, ends) && AllWords(s, c) && Ends(c) <= ends
    ensures CWords(b, c) == Words(s, c)
  {
    match c
    case Exec(args) =>
      forall k | 0 <= k < |args| ensures CString(b, args[k].q) == Text(s, args[k]) {
        assert args[k].eq in EndsOf(args);
        WordKept(s, a, b, ends, args[k]);
      }
    case Redir(sub, file, _, _) =>
      WordsKept(s, a, b, ends, sub);
      WordKept(s, a, b, ends, file);
    case Pipe(l, r) => WordsKept(s, a, b, ends, l); WordsKept(s, a, b, ends, r);
    case List(l, r) => WordsKept(s, a, b, ends, l); WordsKept(s, a, b, ends, r);
    case Back(sub) => WordsKept(s, a, b, ends, sub);
  }

  // ---- parsecmd ----

  method StrLen(buf: array<char>) returns (n: nat)
    requires '\0' in buf[..]
    ensures n < buf.Length && buf[n] == '\0' && NoNul(buf[..n])
  {
    n := 0;
    while buf[n] != '\0'
      invariant n < buf.Length && NoNul(buf[..n]) && exists k :: n <= k < buf.Length && buf[k] == '\0'
      decreases buf.Length - n
    {
      n := n + 1;
    }
  }

  // Nothing is left after the command when all tokens have been read.
  lemma Leftovers(s: string, i: nat, ts: seq<Token>, n: nat)
    requires AllLexed(s, ts) && Aligned(s, i, ts, n)
    ensures Skip(s, i) == |s| <==> n == |ts|
  {
    if n < |ts| {
      assert Lexed(s, ts, n);
    }
  }

  /** The line is the buffer up to its first NUL. A printed command is read back, word by word, from the buffer. */
  method ParseCmd(buf: array<char>) returns (r: Out, ghost s: string)
    requires '\0' in buf[..]
    modifies buf
    ensures s == CString(old(buf[..]), 0) && |s| < buf.Length
    ensures var q := Parse(Tokens(s, 0)); if r.Fail? then q == r else q.Ok? && q.value == r.value
    ensures r.Ok? ==> CWords(buf[..], r.value) == Words(s, r.value) && Cut(old(buf[..]), buf[..], Ends(r.value))
    ensures r.Ok? ==> Outside(s, Ends(r.value))
    ensures forall c :: Legal(c) && Print(c) == s ==> r.Ok? && CWords(buf[..], r.value) == c
  {
    var es := StrLen(buf);
    s := buf[..es];
    CStringIs(buf[..], 0, es);
    r := ParseBuffer(buf[..es]);
    if r.Ok? {
      EndsOutside(s, r.value);
      NulTerminate(r.value, buf);
      WordsKept(s, old(buf[..]), buf[..], Ends(r.value), r.value);
    }
    forall c | Legal(c) && Print(c) == s ensures r.Ok? && CWords(buf[..], r.value) == c {
      RoundTrip(c);
    }
  }

  // parsecmd, up to nulterminate.
  method ParseBuffer(s: string) returns (r: Out)
    requires NoNul(s)
    ensures var q := Parse(Tokens(s, 0));
            if r.Fail? then q == r else q.Ok? && q.value == r.value && AllWords(s, r.value)
  {
    ghost var ts := Tokens(s, 0);
    TokensLexed(s, 0);
    r := ParseLine(s, 0, ts, 0);
    if r.Fail? {
      return;
    }
    Leftovers(s, r.pos, ts, LineAt(ts, 0).pos);
    var p := SkipBlanks(s, r.pos);
    if p != |s| {
      return Fail(Syntax);
    }
  }
}
