// The exec command: how it is split into flags, and how a note that lost its quotes
// is put together again. parseCommandFlags and coalesceNoteFlags of
// sshmuxer/channels.go.

module CommandFlags {
  import opened Options
  import B = Bytes

  // ----- the tokenizer -----

  datatype Lexer = Lexer(flags: seq<string>, current: string, quote: Option<char>, escape: bool)

  const START := Lexer([], "", None, false)

  predicate Blank(c: char) {
    c == ' ' || c == '\t' || c == '\n' || c == '\r'
  }

  predicate QuoteChar(c: char) {
    c == '\'' || c == '"'
  }

  function Flush(l: Lexer): Lexer {
    if l.current == "" then l else l.(flags := l.flags + [l.current], current := "")
  }

  function Read(l: Lexer, c: char): Lexer {
    if l.escape then l.(current := l.current + [c], escape := false)
    else if c == '\\' then l.(escape := true)
    else if l.quote.Some? then
      if c == l.quote.value then l.(quote := None) else l.(current := l.current + [c])
    else if QuoteChar(c) then l.(quote := Some(c))
    else if Blank(c) then Flush(l)
    else l.(current := l.current + [c])
  }

  function ReadAll(l: Lexer, s: string): Lexer
    decreases |s|
  {
    if s == "" then l else ReadAll(Read(l, s[0]), s[1..])
  }

  function Flags(payload: string): seq<string> {
    Flush(ReadAll(START, payload)).flags
  }

  lemma {:induction false} ReadAppend(l: Lexer, s: string, t: string)
    ensures ReadAll(l, s + t) == ReadAll(ReadAll(l, s), t)
    decreases |s|
  {
    if s == "" {
      assert s + t == t;
    } else {
      assert (s + t)[1..] == s[1..] + t;
      ReadAppend(Read(l, s[0]), s[1..], t);
    }
  }

  lemma ReadSnoc(payload: string, i: nat)
    requires i < |payload|
    ensures ReadAll(START, payload[..i + 1]) == Read(ReadAll(START, payload[..i]), payload[i])
  {
    assert payload[..i + 1] == payload[..i] + [payload[i]];
    ReadAppend(START, payload[..i], [payload[i]]);
  }

  /** The loop of parseCommandFlags. */
  method ParseCommandFlags(payload: string) returns (flags: seq<string>)
    ensures flags == Flags(payload)
  {
    hide ReadAll;
    var current := "";
    var inQuotes, quoteChar, escapeNext := false, '\0', false;
    flags := [];
    ReadNone();
    for i := 0 to |payload|
      invariant ReadAll(START, payload[..i]) == Lexer(flags, current, if inQuotes then Some(quoteChar) else None, escapeNext)
    {
      ReadSnoc(payload, i);
      var r := payload[i];
      if escapeNext {
        current, escapeNext := current + [r], false;
        continue;
      }
      if r == '\\' {
        escapeNext := true;
        continue;
      }
      if inQuotes {
        if r == quoteChar {
          inQuotes, quoteChar := false, '\0';
          continue;
        }
        current := current + [r];
        continue;
      }
      if r == '\'' || r == '"' {
        inQuotes, quoteChar := true, r;
        continue;
      }
      if r == ' ' || r == '\t' || r == '\n' || r == '\r' {
        if current != "" {
          flags, current := flags + [current], "";
        }
        continue;
      }
      current := current + [r];
    }
    assert payload[..|payload|] == payload;
    if current != "" {
      flags := flags + [current];
    }
  }

  lemma ReadNone()
    ensures ReadAll(START, "") == START
  {}

  /** However the payload is written, no flag is empty. */
  lemma {:induction false} NoEmptyFlags(payload: string)
    ensures "" !in Flags(payload)
  {
    NoEmptyRead(START, payload);
  }

  lemma {:induction false} NoEmptyRead(l: Lexer, s: string)
    requires "" !in l.flags
    ensures "" !in ReadAll(l, s).flags
    decreases |s|
  {
    if s != "" {
      NoEmptyRead(Read(l, s[0]), s[1..]);
    }
  }

  // ----- ways to write a flag -----

  /**
   * A piece of a flag, as it stands, with a backslash before each character, or in quotes
   * with a backslash before some, of which the quote and the backslash itself need one.
   */
  datatype Piece = Plain(text: string) | Escaped(text: string) | Quoted(q: char, text: string, escaped: set<nat>)

  predicate PlainText(t: string) {
    forall i :: 0 <= i < |t| ==> t[i] != '\\' && !QuoteChar(t[i]) && !Blank(t[i])
  }

  predicate Legal(p: Piece) {
    match p
    case Plain(t) => PlainText(t)
    case Escaped(_) => true
    case Quoted(q, t, escaped) => QuoteChar(q) && forall i :: 0 <= i < |t| && i !in escaped ==> t[i] != q && t[i] != '\\'
  }

  function Backslashed(t: string): string {
    if t == "" then "" else ['\\', t[0]] + Backslashed(t[1..])
  }

  /** The characters from n on, with a backslash before those that are escaped. */
  function InQuotes(t: string, n: nat, escaped: set<nat>): string
    decreases |t| - n
  {
    if n >= |t| then "" else (if n in escaped then ['\\', t[n]] else [t[n]]) + InQuotes(t, n + 1, escaped)
  }

  function Written(p: Piece): string {
    match p
    case Plain(t) => t
    case Escaped(t) => Backslashed(t)
    case Quoted(q, t, escaped) => [q] + InQuotes(t, 0, escaped) + [q]
  }

  function Value(ps: seq<Piece>): string {
    if ps == [] then "" else ps[0].text + Value(ps[1..])
  }

  function WrittenAll(ps: seq<Piece>): string {
    if ps == [] then "" else Written(ps[0]) + WrittenAll(ps[1..])
  }

  /** A flag made of pieces, and the blanks after it. */
  datatype Word = Word(pieces: seq<Piece>, blanks: string)

  predicate AllBlank(s: string) {
    forall c <- s :: Blank(c)
  }

  /** Blanks are needed between words, though not after the last; an empty word, such as two quotes, is no flag. */
  predicate Spelled(words: seq<Word>) {
    forall i :: 0 <= i < |words| ==>
      && (forall p <- words[i].pieces :: Legal(p))
      && AllBlank(words[i].blanks) && (i + 1 < |words| ==> words[i].blanks != "")
  }

  function Text(words: seq<Word>): string {
    if words == [] then "" else WrittenAll(words[0].pieces) + words[0].blanks + Text(words[1..])
  }

  function OneFlag(value: string): seq<string> {
    if value == "" then [] else [value]
  }

  function Values(words: seq<Word>): seq<string> {
    if words == [] then [] else OneFlag(Value(words[0].pieces)) + Values(words[1..])
  }

  lemma {:induction false} ReadPlain(l: Lexer, t: string)
    requires l.quote.None? && !l.escape && PlainText(t)
    ensures ReadAll(l, t) == l.(current := l.current + t)
    decreases |t|
  {
    if t == "" {
      assert l.current + t == l.current;
    } else {
      ReadPlain(Read(l, t[0]), t[1..]);
      assert l.current + [t[0]] + t[1..] == l.current + t;
    }
  }

  lemma {:induction false} ReadEscaped(l: Lexer, t: string)
    requires !l.escape
    ensures ReadAll(l, Backslashed(t)) == l.(current := l.current + t)
    decreases |t|
  {
    if t == "" {
      assert l.current + t == l.current;
    } else {
      var s := Backslashed(t);
      assert s[1..][0] == t[0] && s[1..][1..] == Backslashed(t[1..]);
      assert ReadAll(l, s) == ReadAll(Read(Read(l, '\\'), t[0]), Backslashed(t[1..]));
      ReadEscaped(l.(current := l.current + [t[0]]), t[1..]);
      assert l.current + [t[0]] + t[1..] == l.current + t;
    }
  }

  lemma {:induction false} ReadInQuotes(l: Lexer, q: char, t: string, n: nat, escaped: set<nat>)
    requires l.quote == Some(q) && !l.escape && n <= |t| && Legal(Quoted(q, t, escaped))
    ensures ReadAll(l, InQuotes(t, n, escaped)) == l.(current := l.current + t[n..])
    decreases |t| - n
  {
    if n == |t| {
      assert l.current + t[n..] == l.current;
    } else {
      var rest := InQuotes(t, n + 1, escaped);
      var next := l.(current := l.current + [t[n]]);
      ReadInQuotes(next, q, t, n + 1, escaped);
      assert l.current + [t[n]] + t[n + 1..] == l.current + t[n..];
      if n in escaped {
        assert (['\\', t[n]] + rest)[1..] == [t[n]] + rest && ([t[n]] + rest)[1..] == rest;
        assert ReadAll(l, ['\\', t[n]] + rest) == ReadAll(Read(l, '\\'), [t[n]] + rest);
        assert ReadAll(Read(l, '\\'), [t[n]] + rest) == ReadAll(next, rest);
      } else {
        assert ([t[n]] + rest)[1..] == rest;
      }
    }
  }

  lemma ReadPiece(l: Lexer, p: Piece)
    requires l.quote.None? && !l.escape && Legal(p)
    ensures ReadAll(l, Written(p)) == l.(current := l.current + p.text)
  {
    match p
    case Plain(t) => ReadPlain(l, t);
    case Escaped(t) => ReadEscaped(l, t);
    case Quoted(q, t, escaped) =>
      var text := InQuotes(t, 0, escaped);
      ReadAppend(l, [q] + text, [q]);
      ReadAppend(l, [q], text);
      var inside := l.(quote := Some(q));
      assert ReadAll(l, [q]) == inside;
      ReadInQuotes(inside, q, t, 0, escaped);
      assert t[0..] == t;
      assert ReadAll(inside.(current := l.current + t), [q]) == l.(current := l.current + t);
  }

  lemma EndsWithNone<T>(a: seq<T>)
    ensures a + [] == a && [] + a == a
  {}

  lemma {:induction false} ReadPieces(l: Lexer, ps: seq<Piece>)
    requires l.quote.None? && !l.escape && forall p <- ps :: Legal(p)
    ensures ReadAll(l, WrittenAll(ps)) == l.(current := l.current + Value(ps))
    decreases |ps|
  {
    if ps == [] {
      EndsWithNone(l.current);
    } else {
      hide ReadAll, Read, Written, Legal;
      ReadAppend(l, Written(ps[0]), WrittenAll(ps[1..]));
      ReadPiece(l, ps[0]);
      ReadPieces(l.(current := l.current + ps[0].text), ps[1..]);
      B.Regroup(l.current, ps[0].text, Value(ps[1..]));
    }
  }

  lemma {:induction false} ReadBlanks(l: Lexer, s: string)
    requires l.quote.None? && !l.escape && AllBlank(s)
    ensures ReadAll(l, s) == if s == "" then l else Flush(l)
    decreases |s|
  {
    if s != "" {
      assert s[0] in s;
      ReadBlanks(Flush(l), s[1..]);
      assert Flush(Flush(l)) == Flush(l);
    }
  }

  /** One flag and its blanks. */
  lemma ReadWord(l: Lexer, w: Word)
    requires l.quote.None? && !l.escape && l.current == ""
    requires (forall p <- w.pieces :: Legal(p)) && AllBlank(w.blanks)
    ensures ReadAll(l, WrittenAll(w.pieces) + w.blanks)
      == if w.blanks == "" then l.(current := Value(w.pieces)) else l.(flags := l.flags + OneFlag(Value(w.pieces)))
  {
    hide ReadAll, Read, WrittenAll, Value, Legal, AllBlank;
    ReadAppend(l, WrittenAll(w.pieces), w.blanks);
    ReadPieces(l, w.pieces);
    EndsWithNone(Value(w.pieces));
    EndsWithNone(l.flags);
    ReadBlanks(l.(current := Value(w.pieces)), w.blanks);
  }

  lemma {:induction false} ReadWords(l: Lexer, words: seq<Word>)
    requires l.quote.None? && !l.escape && l.current == "" && Spelled(words)
    ensures Flush(ReadAll(l, Text(words))).flags == l.flags + Values(words)
    decreases |words|
  {
    if words == [] {
      EndsWithNone(l.flags);
    } else {
      SpelledTail(words);
      hide Spelled, ReadAll, Read, WrittenAll, Value, Legal, AllBlank;
      var w, rest := words[0], words[1..];
      ReadAppend(l, WrittenAll(w.pieces) + w.blanks, Text(rest));
      ReadWord(l, w);
      if rest != [] {
        ReadWords(l.(flags := l.flags + OneFlag(Value(w.pieces))), rest);
        B.Regroup(l.flags, OneFlag(Value(w.pieces)), Values(rest));
      } else {
        ReadAllNone(ReadAll(l, WrittenAll(w.pieces) + w.blanks));
        EndsWithNone(OneFlag(Value(w.pieces)));
        EndsWithNone(l.flags);
      }
    }
  }

  lemma ReadAllNone(l: Lexer)
    ensures ReadAll(l, "") == l
  {}

  lemma SpelledTail(words: seq<Word>)
    requires Spelled(words) && words != []
    ensures Spelled(words[1..])
    ensures (forall p <- words[0].pieces :: Legal(p)) && AllBlank(words[0].blanks)
    ensures |words| > 1 ==> words[0].blanks != ""
  {
    var rest := words[1..];
    assert forall i :: 0 <= i < |rest| ==> rest[i] == words[i + 1];
  }

  /**
   * Any flags come back from any way of writing them: each a mixture of plain,
   * backslashed and quoted pieces, with any blanks before, between and after.
   */
  lemma WrittenFlagsComeBack(lead: string, words: seq<Word>)
    requires AllBlank(lead) && Spelled(words)
    ensures Flags(lead + Text(words)) == Values(words)
  {
    ReadAppend(START, lead, Text(words));
    ReadBlanks(START, lead);
    ReadWords(START, words);
    assert [] + Values(words) == Values(words);
  }

  /** How the text may break off inside a flag: in quotes that are never closed, and after a backslash. */
  datatype Ending = Ending(unclosed: Option<Piece>, slash: bool)

  predicate LegalEnding(e: Ending) {
    e.unclosed.Some? ==> e.unclosed.value.Quoted? && Legal(e.unclosed.value)
  }

  function EndText(e: Ending): string {
    (match e.unclosed
     case Some(Quoted(q, t, escaped)) => [q] + InQuotes(t, 0, escaped)
     case _ => "")
    + if e.slash then "\\" else ""
  }

  lemma ReadEnding(l: Lexer, e: Ending)
    requires l.quote.None? && !l.escape && LegalEnding(e)
    ensures Flush(ReadAll(l, EndText(e))).flags == l.flags + OneFlag(l.current + if e.unclosed.Some? then e.unclosed.value.text else "")
  {
    var text := if e.unclosed.Some? then e.unclosed.value.text else "";
    var open := EndText(e.(slash := false));
    var mid := ReadAll(l, open);
    EndsWithNone(l.flags);
    EndsWithNone(open);
    if e.unclosed.Some? {
      var p := e.unclosed.value;
      var inside := l.(quote := Some(p.q));
      assert open == [p.q] + InQuotes(p.text, 0, p.escaped);
      ReadAppend(l, [p.q], InQuotes(p.text, 0, p.escaped));
      ReadOne(l, p.q);
      assert Read(l, p.q) == inside;
      ReadInQuotes(inside, p.q, p.text, 0, p.escaped);
      assert p.text[0..] == p.text;
      assert mid == inside.(current := l.current + text);
    } else {
      EndsWithNone(l.current);
      assert open == "";
      assert mid == l.(current := l.current + text);
    }
    if e.slash {
      ReadAppend(l, open, "\\");
      ReadOne(mid, '\\');
      assert Read(mid, '\\') == mid.(escape := true);
    }
  }

  lemma ReadOne(l: Lexer, c: char)
    ensures ReadAll(l, [c]) == Read(l, c)
  {
    assert [c][1..] == "";
    assert ReadAll(Read(l, c), "") == Read(l, c);
  }

  /** A text may break off anywhere: open quotes count as closed, and a last backslash for nothing. */
  lemma OpenEndsAreForgiven(lead: string, words: seq<Word>, last: seq<Piece>, e: Ending)
    requires AllBlank(lead) && Spelled(words) && (words != [] ==> words[|words| - 1].blanks != "")
    requires (forall p <- last :: Legal(p)) && LegalEnding(e)
    ensures Flags(lead + Text(words) + WrittenAll(last) + EndText(e))
      == Values(words) + OneFlag(Value(last) + if e.unclosed.Some? then e.unclosed.value.text else "")
  {
    hide ReadAll, Read, Text, Values, WrittenAll, Value, EndText, Legal, AllBlank, Spelled;
    ReadAppend(START, lead + Text(words) + WrittenAll(last), EndText(e));
    ReadAppend(START, lead + Text(words), WrittenAll(last));
    ReadAppend(START, lead, Text(words));
    ReadBlanks(START, lead);
    ReadWordsThrough(START, words);
    EndsWithNone(Values(words));
    var l := START.(flags := Values(words));
    assert ReadAll(START, lead + Text(words)) == l;
    ReadPieces(l, last);
    EndsWithNone(Value(last));
    ReadEnding(l.(current := Value(last)), e);
  }

  /** Words with blanks after each leave nothing unread. */
  lemma {:induction false} ReadWordsThrough(l: Lexer, words: seq<Word>)
    requires l.quote.None? && !l.escape && l.current == "" && Spelled(words)
    requires words != [] ==> words[|words| - 1].blanks != ""
    ensures ReadAll(l, Text(words)) == l.(flags := l.flags + Values(words))
    decreases |words|
  {
    EndsWithNone(l.flags);
    if words != [] {
      SpelledTail(words);
      hide Spelled, ReadAll, Read, WrittenAll, Value, Legal, AllBlank;
      var w, rest := words[0], words[1..];
      assert rest != [] ==> rest[|rest| - 1] == words[|words| - 1];
      ReadAppend(l, WrittenAll(w.pieces) + w.blanks, Text(rest));
      ReadWord(l, w);
      ReadWordsThrough(l.(flags := l.flags + OneFlag(Value(w.pieces))), rest);
      B.Regroup(l.flags, OneFlag(Value(w.pieces)), Values(rest));
    } else {
      ReadAllNone(l);
    }
  }

  /** In particular any non-empty flags whatever, each backslashed, joined by spaces. */
  lemma {:induction false} BackslashedFlagsComeBack(flags: seq<string>)
    requires "" !in flags
    ensures Flags(SpaceJoined(flags)) == flags
  {
    var words := Backslash(flags);
    JoinedText(flags);
    JoinedSpelled(flags);
    WrittenFlagsComeBack("", words);
    assert "" + Text(words) == Text(words);
  }

  function SpaceJoined(flags: seq<string>): string {
    if flags == [] then ""
    else if |flags| == 1 then Backslashed(flags[0])
    else Backslashed(flags[0]) + " " + SpaceJoined(flags[1..])
  }

  function Backslash(flags: seq<string>): seq<Word> {
    if flags == [] then []
    else [Word([Escaped(flags[0])], if |flags| == 1 then "" else " ")] + Backslash(flags[1..])
  }

  lemma OneMore(w: Word, words: seq<Word>)
    ensures Text([w] + words) == WrittenAll(w.pieces) + w.blanks + Text(words)
    ensures Values([w] + words) == OneFlag(Value(w.pieces)) + Values(words)
  {
    hide WrittenAll, Value;
    assert ([w] + words)[1..] == words;
  }

  lemma {:induction false} JoinedText(flags: seq<string>)
    requires "" !in flags
    ensures Text(Backslash(flags)) == SpaceJoined(flags) && Values(Backslash(flags)) == flags
  {
    if flags != [] {
      OnePiece(Escaped(flags[0]));
      hide WrittenAll, Value, Text, Values;
      JoinedText(flags[1..]);
      OneMore(Word([Escaped(flags[0])], if |flags| == 1 then "" else " "), Backslash(flags[1..]));
      SplitAt(flags, 1);
      if |flags| == 1 {
        NoWords();
        EndsWithNone(Backslashed(flags[0]));
        assert flags[1..] == [];
      }
    } else {
      NoWords();
    }
  }

  lemma NoWords()
    ensures Text([]) == "" && Values([]) == []
  {}

  lemma {:induction false} JoinedSpelled(flags: seq<string>)
    requires "" !in flags
    ensures Spelled(Backslash(flags)) && |Backslash(flags)| == |flags|
  {
    if flags != [] {
      OnePiece(Escaped(flags[0]));
      hide WrittenAll, Value;
      JoinedSpelled(flags[1..]);
      SpelledCons(Backslash(flags)[0], Backslash(flags[1..]));
    }
  }

  lemma SpelledCons(w: Word, words: seq<Word>)
    requires Spelled(words) && (forall p <- w.pieces :: Legal(p)) && AllBlank(w.blanks)
    requires words != [] ==> w.blanks != ""
    ensures Spelled([w] + words)
  {
    var all := [w] + words;
    assert forall i :: 0 < i < |all| ==> all[i] == words[i - 1];
  }

  lemma OnePiece(p: Piece)
    ensures Value([p]) == p.text && WrittenAll([p]) == Written(p)
  {
    assert p.text + "" == p.text && Written(p) + "" == Written(p);
  }

  // ----- notes -----

  const NOTE := "note="
  const SPLITTER := '='

  function TrimLeft(space: char -> bool, s: string): (r: string)
    ensures r == "" || !space(r[0])
  {
    if s != "" && space(s[0]) then TrimLeft(space, s[1..]) else s
  }

  function TrimRight(space: char -> bool, s: string): (r: string)
    ensures r <= s && (r == "" || !space(r[|r| - 1]))
  {
    if s != "" && space(s[|s| - 1]) then TrimRight(space, s[..|s| - 1]) else s
  }

  /** space is the character class of strings.TrimSpace. */
  function Trim(space: char -> bool, s: string): string {
    TrimRight(space, TrimLeft(space, s))
  }

  lemma TrimTwice(space: char -> bool, s: string)
    ensures Trim(space, Trim(space, s)) == Trim(space, s)
  {}

  /** A flag that is no note, or a note with the flags that it takes in. */
  datatype Group = Other(flag: string) | Note(value: string, taken: seq<string>)

  predicate IsNote(flag: string) {
    NOTE <= flag
  }

  predicate NoSplitter(flags: seq<string>) {
    forall i :: 0 <= i < |flags| ==> SPLITTER !in flags[i]
  }

  /** How many flags a note before them takes in: those up to the next with a '='. */
  function Taken(flags: seq<string>): (n: nat)
    ensures n <= |flags| && NoSplitter(flags[..n])
    ensures n < |flags| ==> SPLITTER in flags[n]
  {
    if flags == [] || SPLITTER in flags[0] then 0 else 1 + Taken(flags[1..])
  }

  function FirstGroup(flags: seq<string>): Group
    requires flags != []
  {
    if IsNote(flags[0]) then Note(flags[0][|NOTE|..], flags[1..][..Taken(flags[1..])]) else Other(flags[0])
  }

  function Length(g: Group): nat {
    if g.Note? then 1 + |g.taken| else 1
  }

  function Groups(flags: seq<string>): seq<Group>
    decreases |flags|
  {
    if flags == [] then []
    else
      var g := FirstGroup(flags);
      [g] + Groups(flags[Length(g)..])
  }

  function FlatOne(g: Group): seq<string> {
    match g
    case Other(flag) => [flag]
    case Note(value, taken) => [NOTE + value] + taken
  }

  function Flat(gs: seq<Group>): seq<string> {
    if gs == [] then [] else FlatOne(gs[0]) + Flat(gs[1..])
  }

  function Joined(value: string, taken: seq<string>): string
    decreases |taken|
  {
    if taken == [] then value else Joined(value + " " + taken[0], taken[1..])
  }

  function Merged(space: char -> bool, g: Group): string {
    match g
    case Other(flag) => flag
    case Note(value, taken) => NOTE + Trim(space, Joined(value, taken))
  }

  function MergedAll(space: char -> bool, gs: seq<Group>): seq<string> {
    if gs == [] then [] else [Merged(space, gs[0])] + MergedAll(space, gs[1..])
  }

  predicate GoodGroup(g: Group) {
    match g
    case Other(flag) => !IsNote(flag)
    case Note(_, taken) => NoSplitter(taken)
  }

  /** Flags without a '=' follow a note only inside it; other flags are no notes. */
  predicate WellGrouped(gs: seq<Group>) {
    gs != [] ==>
      && GoodGroup(gs[0]) && WellGrouped(gs[1..])
      && (gs[0].Note? && |gs| > 1 && gs[1].Other? ==> SPLITTER in gs[1].flag)
  }

  /** The inner loop: the note at i with all that it takes in, and the last flag taken. */
  method Absorb(flags: seq<string>, i: nat) returns (value: string, last: nat)
    requires i < |flags| && IsNote(flags[i])
    ensures var g := FirstGroup(flags[i..]); last == i + |g.taken| && value == Joined(g.value, g.taken)
  {
    value, last := flags[i][|NOTE|..], i;
    ghost var rest := flags[i..][1..];
    ghost var n := Taken(rest);
    ghost var taken := rest[..n];
    while last + 1 < |flags|
      invariant i <= last <= i + n && last < |flags|
      invariant Joined(value, taken[last - i..]) == Joined(flags[i][|NOTE|..], taken)
      decreases |flags| - last
    {
      var next := flags[last + 1];
      assert next == rest[last - i];
      assert last - i < n ==> next == taken[last - i];
      if SPLITTER in next {
        break;
      }
      assert last - i < n && next == taken[last - i];
      assert taken[last - i..][1..] == taken[last + 1 - i..];
      value := value + " " + next;
      last := last + 1;
    }
    assert last == i + n;
    assert taken[n..] == [];
  }

  /** The outer loop of coalesceNoteFlags. */
  method CoalesceNoteFlags(space: char -> bool, flags: seq<string>) returns (merged: seq<string>)
    ensures merged == MergedAll(space, Groups(flags))
  {
    hide Trim, Joined, MergedAll, Groups, Taken;
    merged := [];
    var i := 0;
    assert flags[0..] == flags;
    EndsWithNone(MergedAll(space, Groups(flags)));
    while i < |flags|
      invariant 0 <= i <= |flags|
      invariant merged + MergedAll(space, Groups(flags[i..])) == MergedAll(space, Groups(flags))
    {
      ghost var rest := flags[i..];
      ghost var g := FirstGroup(rest);
      GroupsUncons(space, rest);
      assert rest[Length(g)..] == flags[i + Length(g)..];
      B.Regroup(merged, [Merged(space, g)], MergedAll(space, Groups(flags[i + Length(g)..])));
      var flag := flags[i];
      if IsNote(flag) {
        var value, last := Absorb(flags, i);
        flag, i := NOTE + Trim(space, value), last;
      }
      assert flag == Merged(space, g);
      merged, i := merged + [flag], i + 1;
    }
    NoGroups(space);
    assert flags[i..] == [];
    EndsWithNone(merged);
  }

  lemma NoGroups(space: char -> bool)
    ensures MergedAll(space, Groups([])) == []
  {}

  lemma GroupsUncons(space: char -> bool, flags: seq<string>)
    requires flags != []
    ensures var g := FirstGroup(flags);
      && Length(g) <= |flags|
      && Groups(flags) == [g] + Groups(flags[Length(g)..])
      && MergedAll(space, Groups(flags)) == [Merged(space, g)] + MergedAll(space, Groups(flags[Length(g)..]))
  {
    var g := FirstGroup(flags);
    assert ([g] + Groups(flags[Length(g)..]))[1..] == Groups(flags[Length(g)..]);
  }

  lemma FirstFlags(flags: seq<string>)
    requires flags != []
    ensures var g := FirstGroup(flags);
      Length(g) <= |flags| && FlatOne(g) == flags[..Length(g)] && GoodGroup(g)
      && (g.Note? && Length(g) < |flags| ==> SPLITTER in flags[Length(g)])
  {
    var g := FirstGroup(flags);
    if g.Note? {
      assert flags[0] == NOTE + g.value;
    }
  }

  /** Nothing is lost, and the grouping keeps its rules. */
  lemma {:induction false} GroupsKeepFlags(flags: seq<string>)
    ensures Flat(Groups(flags)) == flags && WellGrouped(Groups(flags))
    decreases |flags|
  {
    if flags != [] {
      var g := FirstGroup(flags);
      FirstFlags(flags);
      var rest := flags[Length(g)..];
      assert Groups(flags) == [g] + Groups(rest);
      hide FirstGroup, FlatOne, GoodGroup, Flat, WellGrouped, Groups, Length;
      GroupsKeepFlags(rest);
      FlatFirst(Groups(rest));
      Cons(g, Groups(rest));
      SplitAt(flags, Length(g));
    }
  }

  lemma SplitAt<T>(xs: seq<T>, n: nat)
    requires n <= |xs|
    ensures xs == xs[..n] + xs[n..]
  {}

  lemma Cons(g: Group, gs: seq<Group>)
    ensures Flat([g] + gs) == FlatOne(g) + Flat(gs)
    ensures GoodGroup(g) && WellGrouped(gs) && (g.Note? && gs != [] && gs[0].Other? ==> SPLITTER in gs[0].flag) ==>
      WellGrouped([g] + gs)
  {
    hide FlatOne, GoodGroup;
    assert ([g] + gs)[1..] == gs;
  }

  lemma FlatFirst(gs: seq<Group>)
    ensures gs != [] && gs[0].Other? ==> Flat(gs) != [] && Flat(gs)[0] == gs[0].flag
  {}

  /** The rules leave only one grouping: a note takes in exactly the flags up to the next with a '='. */
  lemma {:induction false} GroupsAreTheOnlyOnes(gs: seq<Group>)
    requires WellGrouped(gs)
    ensures Groups(Flat(gs)) == gs
  {
    if gs != [] {
      GroupsAreTheOnlyOnes(gs[1..]);
      FirstOfFlat(gs);
      SkipFirst(gs);
      hide FirstGroup, WellGrouped, Flat, FlatOne;
      assert gs == [gs[0]] + gs[1..];
    }
  }

  lemma SkipFirst(gs: seq<Group>)
    requires gs != []
    ensures Length(gs[0]) <= |Flat(gs)| && Flat(gs)[Length(gs[0])..] == Flat(gs[1..])
  {
    assert |FlatOne(gs[0])| == Length(gs[0]);
    hide FlatOne;
  }

  lemma FirstOfFlat(gs: seq<Group>)
    requires WellGrouped(gs) && gs != []
    ensures Flat(gs) != [] && FirstGroup(Flat(gs)) == gs[0]
  {
    if gs[0].Note? {
      AfterNote(gs);
      NoteFirst(gs[0].value, gs[0].taken, Flat(gs[1..]));
    }
  }

  lemma NoteFirst(value: string, taken: seq<string>, rest: seq<string>)
    requires NoSplitter(taken) && (rest != [] ==> SPLITTER in rest[0])
    ensures FirstGroup([NOTE + value] + taken + rest) == Note(value, taken)
  {
    var flags := [NOTE + value] + taken + rest;
    assert flags[0] == NOTE + value && flags[1..] == taken + rest;
    TakenIs(taken, rest);
  }

  /** What follows a note begins with a flag that has a '='. */
  lemma AfterNote(gs: seq<Group>)
    requires WellGrouped(gs) && gs != [] && gs[0].Note?
    ensures Flat(gs[1..]) != [] ==> SPLITTER in Flat(gs[1..])[0]
  {
    var rest := gs[1..];
    if rest != [] {
      assert rest[0] == gs[1];
      if rest[0].Note? {
        assert Flat(rest)[0] == NOTE + rest[0].value;
        assert Flat(rest)[0][|NOTE| - 1] == SPLITTER;
      }
    }
  }

  lemma {:induction false} TakenIs(taken: seq<string>, rest: seq<string>)
    requires NoSplitter(taken) && (rest != [] ==> SPLITTER in rest[0])
    ensures Taken(taken + rest) == |taken|
  {
    if taken == [] {
      assert taken + rest == rest;
    } else {
      assert (taken + rest)[1..] == taken[1..] + rest;
      TakenIs(taken[1..], rest);
    }
  }

  /** A group once merged: a note on its own. */
  function Alone(space: char -> bool, g: Group): Group {
    if g.Note? then Note(Trim(space, Joined(g.value, g.taken)), []) else g
  }

  function AllAlone(space: char -> bool, gs: seq<Group>): seq<Group> {
    if gs == [] then [] else [Alone(space, gs[0])] + AllAlone(space, gs[1..])
  }

  lemma {:induction false} AloneFacts(space: char -> bool, gs: seq<Group>)
    requires WellGrouped(gs)
    ensures var alone := AllAlone(space, gs);
      && WellGrouped(alone) && |alone| == |gs| && (gs != [] ==> alone[0] == Alone(space, gs[0]))
      && Flat(alone) == MergedAll(space, gs) && MergedAll(space, alone) == MergedAll(space, gs)
  {
    hide Trim, Joined;
    if gs != [] {
      AloneFacts(space, gs[1..]);
      var alone := AllAlone(space, gs);
      assert alone[1..] == AllAlone(space, gs[1..]);
      AloneMerged(space, gs[0]);
    }
  }

  lemma AloneMerged(space: char -> bool, g: Group)
    ensures FlatOne(Alone(space, g)) == [Merged(space, g)] && Merged(space, Alone(space, g)) == Merged(space, g)
  {
    if g.Note? {
      TrimTwice(space, Joined(g.value, g.taken));
    }
  }

  /** Merging once is enough. */
  lemma {:induction false} CoalesceTwice(space: char -> bool, flags: seq<string>)
    ensures var once := MergedAll(space, Groups(flags)); MergedAll(space, Groups(once)) == once
  {
    GroupsKeepFlags(flags);
    var gs := Groups(flags);
    AloneFacts(space, gs);
    GroupsAreTheOnlyOnes(AllAlone(space, gs));
  }

  // ----- what a note says -----

  /** The words with one space between. */
  function Spaced(words: seq<string>): string {
    if words == [] then ""
    else if |words| == 1 then words[0]
    else words[0] + " " + Spaced(words[1..])
  }

  /** A note that took in flags says its own value and then they, one space between, and nothing blank around it. */
  lemma {:induction false} JoinedIsSpaced(value: string, taken: seq<string>)
    ensures Joined(value, taken) == Spaced([value] + taken)
    decreases |taken|
  {
    var all := [value] + taken;
    if taken != [] {
      JoinedIsSpaced(value + " " + taken[0], taken[1..]);
      assert all[1..] == taken;
      var next := [value + " " + taken[0]] + taken[1..];
      if |taken| == 1 {
        assert next == [value + " " + taken[0]];
      } else {
        assert next[1..] == taken[1..];
        assert value + " " + (taken[0] + " " + Spaced(taken[1..])) == value + " " + taken[0] + " " + Spaced(taken[1..]);
      }
    }
  }

  /** What is cut off is blank, and what is left does not begin or end with a blank. */
  lemma {:induction false} TrimIs(space: char -> bool, s: string) returns (a: string, b: string)
    ensures var r := Trim(space, s);
      && s == a + r + b && (forall c <- a + b :: space(c))
      && (r != "" ==> !space(r[0]) && !space(r[|r| - 1]))
  {
    a := TrimLeftIs(space, s);
    b := TrimRightIs(space, TrimLeft(space, s));
    assert s == a + (Trim(space, s) + b);
  }

  lemma {:induction false} TrimLeftIs(space: char -> bool, s: string) returns (a: string)
    ensures s == a + TrimLeft(space, s) && forall c <- a :: space(c)
  {
    a := "";
    if s != "" && space(s[0]) {
      var rest := TrimLeftIs(space, s[1..]);
      a := [s[0]] + rest;
    }
  }

  lemma {:induction false} TrimRightIs(space: char -> bool, s: string) returns (b: string)
    ensures s == TrimRight(space, s) + b && forall c <- b :: space(c)
  {
    b := "";
    if s != "" && space(s[|s| - 1]) {
      var rest := TrimRightIs(space, s[..|s| - 1]);
      b := rest + [s[|s| - 1]];
    }
  }

  /** Words as they stand, one space after each but the last. */
  function AsWords(flags: seq<string>): seq<Word> {
    if flags == [] then []
    else [Word([Plain(flags[0])], if |flags| == 1 then "" else " ")] + AsWords(flags[1..])
  }

  predicate PlainFlags(flags: seq<string>) {
    forall i :: 0 <= i < |flags| ==> flags[i] != "" && PlainText(flags[i])
  }

  lemma {:induction false} AsWordsAre(flags: seq<string>)
    requires PlainFlags(flags)
    ensures Text(AsWords(flags)) == Spaced(flags) && Values(AsWords(flags)) == flags
    ensures Spelled(AsWords(flags)) && |AsWords(flags)| == |flags|
  {
    if flags != [] {
      OnePiece(Plain(flags[0]));
      hide WrittenAll, Value, Text, Values, Spelled;
      AsWordsAre(flags[1..]);
      var w := Word([Plain(flags[0])], if |flags| == 1 then "" else " ");
      OneMore(w, AsWords(flags[1..]));
      assert AsWords(flags[1..]) != [] ==> |flags| > 1;
      SpelledCons(w, AsWords(flags[1..]));
      SplitAt(flags, 1);
      if |flags| == 1 {
        NoWords();
        EndsWithNone(flags[0]);
        assert flags[1..] == [];
      }
    } else {
      NoWords();
      NothingSpelled();
    }
  }

  lemma NothingSpelled()
    ensures Spelled([])
  {}

  /** Plain flags with a space between are those flags. */
  lemma PlainFlagsComeBack(flags: seq<string>)
    requires PlainFlags(flags)
    ensures Flags(Spaced(flags)) == flags
  {
    AsWordsAre(flags);
    WrittenFlagsComeBack("", AsWords(flags));
    assert "" + Spaced(flags) == Spaced(flags);
  }

  lemma GroupsOfNote(value: string, taken: seq<string>, others: seq<string>)
    requires NoSplitter(taken) && (others != [] ==> SPLITTER in others[0])
    ensures Groups([NOTE + value] + taken + others) == [Note(value, taken)] + Groups(others)
  {
    GroupsKeepFlags(others);
    var gs := Groups(others);
    FlatFirst(gs);
    Cons(Note(value, taken), gs);
    GroupsAreTheOnlyOnes([Note(value, taken)] + gs);
  }

  /**
   * A note that was typed without its quotes is put together again: its words, up to the
   * next flag with a '=', are one note, with what they say between single spaces.
   */
  lemma UnquotedNoteComesBack(space: char -> bool, first: string, taken: seq<string>, others: seq<string>)
    requires PlainFlags(["note=" + first] + taken + others)
    requires (forall i :: 0 <= i < |taken| ==> '=' !in taken[i]) && (others != [] ==> '=' in others[0])
    ensures MergedAll(space, Groups(Flags(Spaced(["note=" + first] + taken + others))))
      == ["note=" + Trim(space, Spaced([first] + taken))] + MergedAll(space, Groups(others))
  {
    hide Trim, Joined, Groups;
    PlainFlagsComeBack([NOTE + first] + taken + others);
    GroupsOfNote(first, taken, others);
    JoinedIsSpaced(first, taken);
    var gs := [Note(first, taken)] + Groups(others);
    assert gs[1..] == Groups(others);
  }
}
