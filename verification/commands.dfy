/** The user-line parser of src/commands.c. */
module Commands {
  import opened Window
  import opened Payloads
  import opened Tries
  import opened Keywords

  datatype Command =
    | Say(text: seq<byte>)
    | Authenticate(username: seq<byte>, secret: seq<byte>, displayName: seq<byte>)
    | JoinChannel(channelId: seq<byte>)
    | Rename(displayName: seq<byte>)
    | Help
    | Clear
    | Exit

  const W_AUTH := Ascii("/auth")
  const W_JOIN := Ascii("/join")
  const W_RENAME := Ascii("/rename")
  const W_HELP := Ascii("/help")
  const W_CLEAR := Ascii("/clear")
  const W_EXIT := Ascii("/exit")
  const SP := Ascii(" ")

  /** CommandType: 0 is no command. */
  const NONE := 0
  const CMD_AUTH := 1
  const CMD_JOIN := 2
  const CMD_RENAME := 3
  const CMD_HELP := 4
  const CMD_CLEAR := 5
  const CMD_EXIT := 6

  /** The words with their codes, in the order of command_setup. */
  function Word(code: int): seq<byte> {
    if code == CMD_AUTH then W_AUTH
    else if code == CMD_JOIN then W_JOIN
    else if code == CMD_RENAME then W_RENAME
    else if code == CMD_HELP then W_HELP
    else if code == CMD_CLEAR then W_CLEAR
    else if code == CMD_EXIT then W_EXIT
    else []
  }

  /** The command word a text begins with. */
  function CodeOf(t: seq<byte>): int {
    if W_AUTH <= t then CMD_AUTH
    else if W_JOIN <= t then CMD_JOIN
    else if W_RENAME <= t then CMD_RENAME
    else if W_HELP <= t then CMD_HELP
    else if W_CLEAR <= t then CMD_CLEAR
    else if W_EXIT <= t then CMD_EXIT
    else NONE
  }

  function PrefixLength(code: int): nat {
    if code == NONE then 0
    else if code == CMD_CLEAR then 6
    else if code == CMD_RENAME then 7
    else 5
  }

  // ---------------------------------------------------------------- rendering

  /** The canonical line of a command. */
  function Render(c: Command): seq<byte> {
    match c
    case Say(m) => m
    case Authenticate(u, s, d) => W_AUTH + (SP + (u + (SP + (s + (SP + d)))))
    case JoinChannel(ch) => W_JOIN + (SP + ch)
    case Rename(d) => W_RENAME + (SP + d)
    case Help => W_HELP
    case Clear => W_CLEAR
    case Exit => W_EXIT
  }

  /** A text taken for a command: a command word, then a space or the end. */
  predicate IsCommand(t: seq<byte>) {
    var n := PrefixLength(CodeOf(t));
    CodeOf(t) != NONE && (|t| == n || (n < |t| && t[n] == SPACE))
  }

  predicate ValidCommand(c: Command) {
    match c
    case Say(m) => FieldOk(Content, m) && !IsCommand(m)
    case Authenticate(u, s, d) => FieldOk(Username, u) && FieldOk(Secret, s) && FieldOk(DisplayName, d)
    case JoinChannel(ch) => FieldOk(ChannelId, ch)
    case Rename(d) => FieldOk(DisplayName, d)
    case _ => true
  }

  // ---------------------------------------------------------------- parsing

  /** A field that takes up all that is left. */
  function WholeField(f: Field, w: seq<byte>): Option<seq<byte>> {
    var n := Scan(f, w);
    if n > 0 && n == |w| then Some(w) else None
  }

  function ParseAuth(args: seq<byte>): Option<Command> {
    match FieldThen(Username, args, SP)
    case None => None
    case Some(u) =>
      match FieldThen(Secret, u.1, SP)
      case None => None
      case Some(s) =>
        match WholeField(DisplayName, s.1)
        case None => None
        case Some(d) => Some(Authenticate(u.0, s.0, d))
  }

  function ParseArgs(code: int, args: seq<byte>): Option<Command> {
    if code == CMD_AUTH then ParseAuth(args)
    else if code == CMD_JOIN then
      match WholeField(ChannelId, args) case None => None case Some(ch) => Some(JoinChannel(ch))
    else if code == CMD_RENAME then
      match WholeField(DisplayName, args) case None => None case Some(d) => Some(Rename(d))
    else if code == CMD_HELP then if args == [] then Some(Help) else None
    else if code == CMD_CLEAR then if args == [] then Some(Clear) else None
    else if code == CMD_EXIT then if args == [] then Some(Exit) else None
    else
      match WholeField(Content, args) case None => None case Some(m) => Some(Say(m))
  }

  /** command_parse of a trimmed, non-empty text. */
  function ParseTrimmed(t: seq<byte>): Option<Command> {
    if IsCommand(t) then ParseArgs(CodeOf(t), Skip(t, PrefixLength(CodeOf(t)) + 1))
    else ParseArgs(NONE, t)
  }

  function Parse(line: seq<byte>): Option<Command> {
    var t := Trim(line, SPACE);
    if t == [] then None else ParseTrimmed(t)
  }

  // ---------------------------------------------------------------- parser and printer are inverse

  lemma WholeFieldExact(f: Field, w: seq<byte>, v: seq<byte>)
    ensures WholeField(f, w) == Some(v) <==> FieldOk(f, v) && w == v
  {
    if FieldOk(f, v) && w == v {
      assert v + [] == v;
      ScanField(f, v, []);
    }
    if WholeField(f, w) == Some(v) {
      assert w[..|w|] == w;
    }
  }

  lemma AuthExact(args: seq<byte>, u: seq<byte>, s: seq<byte>, d: seq<byte>)
    ensures ParseAuth(args) == Some(Authenticate(u, s, d))
            <==> ValidCommand(Authenticate(u, s, d)) && args == u + (SP + (s + (SP + d)))
  {
    hide FieldThen, WholeField;
    FieldThenExact(Username, args, SP, u, s + (SP + d));
    FieldThenExact(Secret, s + (SP + d), SP, s, d);
    WholeFieldExact(DisplayName, d, d);
    if ParseAuth(args) == Some(Authenticate(u, s, d)) {
      var a := FieldThen(Username, args, SP).value;
      FieldThenExact(Username, args, SP, u, a.1);
      var b := FieldThen(Secret, a.1, SP).value;
      FieldThenExact(Secret, a.1, SP, s, b.1);
      WholeFieldExact(DisplayName, b.1, d);
    }
  }

  function CodeFor(c: Command): int {
    match c
    case Say(_) => NONE
    case Authenticate(_, _, _) => CMD_AUTH
    case JoinChannel(_) => CMD_JOIN
    case Rename(_) => CMD_RENAME
    case Help => CMD_HELP
    case Clear => CMD_CLEAR
    case Exit => CMD_EXIT
  }

  /** What follows the command word and its space. */
  function Args(c: Command): seq<byte> {
    match c
    case Say(m) => m
    case Authenticate(u, s, d) => u + (SP + (s + (SP + d)))
    case JoinChannel(ch) => ch
    case Rename(d) => d
    case _ => []
  }

  /** The fields of `c` are legal, whatever a message begins with. */
  predicate LegalFields(c: Command) {
    if c.Say? then FieldOk(Content, c.text) else ValidCommand(c)
  }

  lemma ArgsExact(code: int, args: seq<byte>, c: Command)
    requires NONE <= code <= CMD_EXIT
    ensures ParseArgs(code, args) == Some(c) <==> code == CodeFor(c) && LegalFields(c) && args == Args(c)
  {
    hide ParseAuth, WholeField;
    match c
    case Say(m) => WholeFieldExact(Content, args, m); AuthOnly(args);
    case Authenticate(u, s, d) => AuthExact(args, u, s, d);
    case JoinChannel(ch) => WholeFieldExact(ChannelId, args, ch); AuthOnly(args);
    case Rename(d) => WholeFieldExact(DisplayName, args, d); AuthOnly(args);
    case _ => AuthOnly(args);
  }

  lemma AuthOnly(args: seq<byte>)
    ensures ParseAuth(args).Some? ==> ParseAuth(args).value.Authenticate?
  {
  }

  lemma WordsDiffer(t: seq<byte>, code: int)
    requires CMD_AUTH <= code <= CMD_EXIT
    ensures Word(code) <= t <==> CodeOf(t) == code
    ensures |Word(code)| == PrefixLength(code)
  {
    assert W_AUTH[1] == 'a' as int && W_JOIN[1] == 'j' as int && W_RENAME[1] == 'r' as int;
    assert W_HELP[1] == 'h' as int && W_CLEAR[1] == 'c' as int && W_EXIT[1] == 'e' as int;
    hide Ascii;
    SecondOf(t, W_AUTH);
    SecondOf(t, W_JOIN);
    SecondOf(t, W_RENAME);
    SecondOf(t, W_HELP);
    SecondOf(t, W_CLEAR);
    SecondOf(t, W_EXIT);
  }

  lemma SecondOf(t: seq<byte>, w: seq<byte>)
    requires |w| > 1
    ensures w <= t ==> |t| > 1 && t[1] == w[1]
  {
  }

  /** A trimmed text splits into a command word and its arguments in the one way it is rendered. */
  lemma CommandSplits(t: seq<byte>, c: Command)
    requires t != [] && NoEdge(t, SPACE) && !c.Say? && LegalFields(c)
    ensures IsCommand(t) && CodeOf(t) == CodeFor(c) && Skip(t, PrefixLength(CodeOf(t)) + 1) == Args(c)
            <==> t == Render(c)
  {
    hide CodeOf, IsCommand, ValidCommand, FieldOk, Word, CodeFor, PrefixLength, Render, Args, LegalFields, NoEdge;
    RenderSplits(c);
    var w := Word(CodeFor(c));
    WordsDiffer(t, CodeFor(c));
    CommandOf(t);
    if Args(c) == [] {
      BareWord(t, w);
    } else {
      SplitsWord(t, w, Args(c));
    }
  }

  lemma CommandOf(t: seq<byte>)
    ensures IsCommand(t) <==>
            CodeOf(t) != NONE
            && (|t| == PrefixLength(CodeOf(t))
                || (PrefixLength(CodeOf(t)) < |t| && t[PrefixLength(CodeOf(t))] == SPACE))
  {
  }

  lemma RenderSplits(c: Command)
    requires LegalFields(c) && !c.Say?
    ensures CMD_AUTH <= CodeFor(c) <= CMD_EXIT && NONE < CMD_AUTH
    ensures Render(c) == Word(CodeFor(c)) + if Args(c) == [] then [] else SP + Args(c)
  {
    hide Ascii;
  }

  lemma BareWord(t: seq<byte>, w: seq<byte>)
    requires t != [] && NoEdge(t, SPACE)
    ensures w <= t && (|t| == |w| || (|w| < |t| && t[|w|] == SPACE)) && Skip(t, |w| + 1) == [] <==> t == w
  {
  }

  lemma SplitsWord(t: seq<byte>, w: seq<byte>, args: seq<byte>)
    requires args != []
    ensures t == w + (SP + args) <==> w <= t && |w| < |t| && t[|w|] == SPACE && Skip(t, |w| + 1) == args
  {
    if w <= t && |w| < |t| && t[|w|] == SPACE {
      assert t == w + (SP + t[|w| + 1..]);
    }
    if t == w + (SP + args) {
      assert t[|w| + 1..] == args;
    }
  }

  lemma NotEmptyRender(c: Command)
    requires LegalFields(c)
    ensures Render(c) != []
  {
  }

  /** A line is accepted as `c` exactly when, trimmed, it is the canonical line of a valid `c`. */
  lemma ParseExact(line: seq<byte>, c: Command)
    ensures Parse(line) == Some(c) <==> ValidCommand(c) && Trim(line, SPACE) == Render(c)
  {
    var t := Trim(line, SPACE);
    var _, _ := TrimSplits(line, SPACE);
    if LegalFields(c) {
      NotEmptyRender(c);
    }
    if t != [] {
      TrimmedExact(t, c);
    }
  }

  lemma TrimmedExact(t: seq<byte>, c: Command)
    requires t != [] && NoEdge(t, SPACE)
    ensures ParseTrimmed(t) == Some(c) <==> ValidCommand(c) && t == Render(c)
  {
    hide IsCommand, CodeOf, ParseArgs, FieldOk;
    var code := CodeOf(t);
    CodeRange(t);
    if IsCommand(t) {
      ArgsExact(code, Skip(t, PrefixLength(code) + 1), c);
    } else {
      ArgsExact(NONE, t, c);
    }
    if !c.Say? && LegalFields(c) {
      CommandSplits(t, c);
      CodeFound(c);
    }
  }

  lemma CodeFound(c: Command)
    requires !c.Say?
    ensures CodeFor(c) != NONE
  {
  }

  lemma CodeRange(t: seq<byte>)
    ensures NONE <= CodeOf(t) <= CMD_EXIT
    ensures IsCommand(t) ==> CodeOf(t) != NONE
  {
  }

  // ---------------------------------------------------------------- the command trie

  function CharIndex(ch: byte): (i: int)
    ensures -1 <= i < ARITY
  {
    if ch < 'a' as int || ch > 'z' as int then -1 else ch - 'a' as int
  }

  function Table(): seq<(string, int)> {
    [("auth", CMD_AUTH), ("join", CMD_JOIN), ("rename", CMD_RENAME),
     ("help", CMD_HELP), ("clear", CMD_CLEAR), ("exit", CMD_EXIT)]
  }

  /** The entries command_setup inserts. */
  function Entries(): (es: seq<Entry>)
    ensures |es| == 6
            && forall i :: 0 <= i < 6 ==> es[i] == Entry(Indexes(CharIndex, Ascii(Table()[i].0)), Table()[i].1)
  {
    seq(6, i requires 0 <= i < 6 => Entry(Indexes(CharIndex, Ascii(Table()[i].0)), Table()[i].1))
  }

  predicate Lower(s: string) {
    forall i :: 0 <= i < |s| ==> 'a' <= s[i] <= 'z'
  }

  lemma WordsAreLower()
    ensures Lower("auth") && Lower("join") && Lower("rename") && Lower("help") && Lower("clear") && Lower("exit")
  {
  }

  /** Lower-case letters have distinct indexes, so agreement of paths is agreement of texts. */
  lemma LowerPrefix(s: string, t: seq<byte>)
    requires Lower(s)
    ensures Indexes(CharIndex, Ascii(s)) <= Indexes(CharIndex, t) <==> Ascii(s) <= t
  {
    var k := Ascii(s);
    forall i | 0 <= i < |k|
      ensures CharIndex(k[i]) >= 0
    {
    }
    IndexPrefix(CharIndex, k, t);
    if |k| <= |t| && forall i :: 0 <= i < |k| ==> CharIndex(t[i]) == CharIndex(k[i]) {
      assert forall i :: 0 <= i < |k| ==> t[i] == k[i];
    }
  }

  lemma SlashWord(s: string, w: seq<byte>, t: seq<byte>)
    requires t != [] && t[0] == '/' as int && w == ['/' as int] + Ascii(s)
    ensures Ascii(s) <= t[1..] <==> w <= t
  {
    assert t == ['/' as int] + t[1..];
    if w <= t {
      assert t[1..][..|s|] == t[..|w|][1..] == Ascii(s);
    }
  }

  lemma WordsAreSlashed()
    ensures W_AUTH == ['/' as int] + Ascii("auth") && W_JOIN == ['/' as int] + Ascii("join")
    ensures W_RENAME == ['/' as int] + Ascii("rename") && W_HELP == ['/' as int] + Ascii("help")
    ensures W_CLEAR == ['/' as int] + Ascii("clear") && W_EXIT == ['/' as int] + Ascii("exit")
  {
  }

  lemma EntryWord(i: nat, t: seq<byte>)
    requires i < 6 && t != [] && t[0] == '/' as int
    ensures Entries()[i].value == i + 1
    ensures Entries()[i].key <= Indexes(CharIndex, t[1..]) <==> Word(i + 1) <= t
  {
    hide Indexes, CharIndex, Ascii, Lower;
    WordsAreLower();
    WordsAreSlashed();
    LowerPrefix(Table()[i].0, t[1..]);
    SlashWord(Table()[i].0, Word(i + 1), t);
  }

  lemma EntryFirst(i: nat)
    requires i < 6
    ensures Entries()[i].key != [] && Entries()[i].key[0] == [0, 9, 17, 7, 2, 4][i]
  {
    var k := Ascii(Table()[i].0);
    assert |k| > 0 && k[0] == 'a' as int + [0, 9, 17, 7, 2, 4][i];
  }

  lemma EntriesPrefixFree()
    ensures PrefixFree(Entries())
  {
    hide Indexes, CharIndex, Ascii;
    forall i: nat | i < 6
      ensures Entries()[i].key != [] && Entries()[i].key[0] == [0, 9, 17, 7, 2, 4][i]
    {
      EntryFirst(i);
    }
    DistinctFirst(Entries(), [0, 9, 17, 7, 2, 4]);
  }

  /** The trie that command_setup builds finds the command word after the slash, -1 standing for none. */
  lemma DispatchIsCode(t: seq<byte>)
    requires t != [] && t[0] == '/' as int
    ensures Match(Built(Entries()), Indexes(CharIndex, t[1..])) == if CodeOf(t) == NONE then -1 else CodeOf(t)
  {
    hide Built, Match, Indexes, CharIndex, Word;
    var q := Indexes(CharIndex, t[1..]);
    EntriesPrefixFree();
    DispatchExact(Entries(), q);
    var i := LinearScanIs(Entries(), q);
    if i < 6 {
      EntryWord(i, t);
      WordsDiffer(t, i + 1);
    } else {
      NoWord(t);
    }
  }

  lemma NoWord(t: seq<byte>)
    requires t != [] && t[0] == '/' as int
    requires forall j :: 0 <= j < 6 ==> !(Entries()[j].key <= Indexes(CharIndex, t[1..]))
    ensures CodeOf(t) == NONE
  {
    hide Indexes, CharIndex, Entries, Ascii;
    var code := CodeOf(t);
    CodeRange(t);
    if code != NONE {
      assert !(Entries()[code - 1].key <= Indexes(CharIndex, t[1..]));
      EntryWord(code - 1, t);
      WordsDiffer(t, code);
    }
  }

  // ---------------------------------------------------------------- the code over the byte window

  /** command_setup. */
  method Setup() returns (trie: Trie)
    ensures fresh(trie.Repr) && trie.Valid() && trie.toIndex == CharIndex
    ensures trie.Nodes == Built(Entries())
  {
    hide Built, Inserted, Indexes, Ascii, Entries, Trie.Valid;
    trie := new Trie(CharIndex);
    var table := Table();
    ghost var es := Entries();
    var i := 0;
    BuiltEmpty(es);
    while i < |table|
      invariant 0 <= i <= 6 && trie.Valid() && trie.toIndex == CharIndex && fresh(trie.Repr)
      invariant trie.Nodes == Built(es[..i])
    {
      trie.Insert(Ascii(table[i].0), table[i].1);
      BuiltStep(es, i);
      i := i + 1;
    }
    assert es[..6] == es;
  }

  /** A last field: the final test of command_parse is that nothing is left. */
  method ReadWhole(buf: Bytes, f: Field) returns (ok: bool, value: seq<byte>)
    requires buf.Valid()
    modifies buf`len, buf`offset
    ensures WholeField(f, old(buf.View())) == if ok then Some(value) else None
  {
    hide Scan;
    ghost var w := buf.View();
    var count;
    value, count := Read(f, buf);
    ok := false;
    if count > 0 {
      buf.SkipFirstN(count);
      ok := buf.len == 0;
      assert w[..|w|] == w;
    }
  }

  method ParseWith(buf: Bytes, code: int) returns (r: Option<Command>)
    requires buf.Valid()
    modifies buf`len, buf`offset
    ensures r == ParseArgs(code, old(buf.View()))
  {
    hide FieldThen, WholeField;
    r := None;
    if code == CMD_AUTH {
      var ok, u := ReadThen(buf, Username, SP);
      if ok {
        var ok', s := ReadThen(buf, Secret, SP);
        if ok' {
          var last, d := ReadWhole(buf, DisplayName);
          r := if last then Some(Authenticate(u, s, d)) else None;
        }
      }
    } else if code == CMD_JOIN {
      var ok, ch := ReadWhole(buf, ChannelId);
      r := if ok then Some(JoinChannel(ch)) else None;
    } else if code == CMD_RENAME {
      var ok, d := ReadWhole(buf, DisplayName);
      r := if ok then Some(Rename(d)) else None;
    } else if code == CMD_HELP || code == CMD_CLEAR || code == CMD_EXIT {
      r := if buf.len != 0 then None else if code == CMD_HELP then Some(Help)
           else if code == CMD_CLEAR then Some(Clear) else Some(Exit);
    } else {
      var ok, m := ReadWhole(buf, Content);
      r := if ok then Some(Say(m)) else None;
    }
  }

  /** command_parse of a C string that fits the buffer with its terminator. */
  method ParseLine(line: seq<byte>, trie: Trie) returns (r: Option<Command>)
    requires |line| < BYTES_SIZE && NUL !in line
    requires trie.Valid() && trie.toIndex == CharIndex && trie.Nodes == Built(Entries())
    ensures r == Parse(line)
  {
    hide Built, Entries, Trim, ParseTrimmed;
    var buf := new Bytes();
    buf.PushArr(line);
    var trimmed := buf.TrimBoth(SPACE);
    if buf.len <= 0 {
      return None;
    }
    NoNul(line);
    var _, _ := TrimSplits(line, SPACE);
    r := ParseSlice(buf, trie);
  }

  /** The rest of command_parse: find the word, skip it, read the arguments. */
  method ParseSlice(buf: Bytes, trie: Trie) returns (r: Option<Command>)
    requires buf.Valid() && buf.Terminated() && buf.offset + buf.len < BYTES_SIZE
    requires buf.View() != [] && NoEdge(buf.View(), SPACE) && NUL !in buf.View()
    requires trie.Valid() && trie.toIndex == CharIndex && trie.Nodes == Built(Entries())
    modifies buf`len, buf`offset
    ensures r == ParseTrimmed(old(buf.View()))
  {
    hide Built, Entries, ParseArgs, CodeOf, IsCommand;
    ghost var t := buf.View();
    var code := FindCode(buf, trie);
    CodeRange(t);
    CodeFits(t);
    CommandOf(t);
    var n := PrefixLength(code);
    var after := buf.At(n);
    assert n < |t| ==> after == t[n] && after != NUL;
    if after == SPACE {
      assert code != NONE;
      buf.SkipFirstN(n + 1);
    } else if after == NUL {
      assert code != NONE;
      assert n == |t| && Skip(t, n + 1) == Skip(t, n) == [];
      buf.SkipFirstN(n);
    } else {
      code := NONE;
    }
    r := ParseWith(buf, code);
  }

  /** The command word of the slice, found by the trie after a slash. */
  method FindCode(buf: Bytes, trie: Trie) returns (code: int)
    requires buf.Valid() && buf.View() != []
    requires trie.Valid() && trie.toIndex == CharIndex && trie.Nodes == Built(Entries())
    ensures code == CodeOf(buf.View())
  {
    hide Built, Entries, CodeOf, Trie.Valid, Indexes, Match, CharIndex, Ascii;
    ghost var t := buf.View();
    var maybe := -1;
    if buf.At(0) == '/' as int {
      maybe := trie.MatchPrefix(buf.data[buf.offset + 1..buf.offset + buf.len]);
      assert buf.data[buf.offset + 1..buf.offset + buf.len] == t[1..];
      DispatchIsCode(t);
    } else {
      NoSlash(t);
    }
    CodeRange(t);
    code := if maybe <= 0 then NONE else maybe;
  }

  lemma NoSlash(t: seq<byte>)
    requires t != [] && t[0] != '/' as int
    ensures CodeOf(t) == NONE
  {
    WordsAreSlashed();
  }

  /** A text is at least as long as the command word it begins with. */
  lemma CodeFits(t: seq<byte>)
    ensures PrefixLength(CodeOf(t)) <= |t|
  {
    if CodeOf(t) != NONE {
      CodeRange(t);
      WordsDiffer(t, CodeOf(t));
    }
  }

  lemma NoNul(line: seq<byte>)
    requires NUL !in line
    ensures NUL !in Trim(line, SPACE)
  {
    var _, _ := TrimSplits(line, SPACE);
  }
}
