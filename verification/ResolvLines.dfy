/** How a resolver reads a line of resolv.conf, as opposed to the prefix tests of the code. */
module ResolvLines {
  import opened Options
  import opened Text
  import opened SeqOps
  import opened LineBuffer
  import opened DnsFiles

  const KEYWORD: string := "nameserver"
  const LOOPBACK: string := "127.0.0.1"

  function Blank(): char -> bool {
    c => IsSpace(c)
  }

  function SkipBlanks(s: string): (t: string)
    ensures |t| <= |s| && (t == "" || !IsSpace(t[0]))
  {
    if s != "" && IsSpace(s[0]) then SkipBlanks(s[1..]) else s
  }

  function Word(s: string): string {
    s[..FirstIndex(s, Blank())]
  }

  /** The line has the keyword, blank-terminated, and then an address. */
  predicate HasServer(line: string) {
    StartsWith(line, KEYWORD) && |line| > |KEYWORD| && IsSpace(line[|KEYWORD|])
  }

  function Address(line: string): string
    requires HasServer(line)
  {
    Word(SkipBlanks(line[|KEYWORD|..]))
  }

  function NamesServer(): string -> bool {
    line => HasServer(line)
  }

  function NamesLocal(): string -> bool {
    line => HasServer(line) && Address(line) == LOOPBACK
  }

  lemma WordOf(word: string, rest: string)
    requires forall i :: 0 <= i < |word| ==> !IsSpace(word[i])
    requires rest == "" || IsSpace(rest[0])
    ensures Word(word + rest) == word
  {
    FirstIndexUnique(word + rest, Blank(), |word|);
  }

  /** The keyword, one blank, an address and whatever follows it. */
  lemma ServerLine(address: string, rest: string)
    requires address != "" && forall i :: 0 <= i < |address| ==> !IsSpace(address[i])
    requires rest == "" || IsSpace(rest[0])
    ensures var line := NAMESERVER + address + rest;
            HasServer(line) && Address(line) == address
  {
    var line := NAMESERVER + address + rest;
    assert line[..|KEYWORD|] == KEYWORD;
    var tail := line[|KEYWORD|..];
    assert tail == " " + (address + rest);
    assert tail[1..] == address + rest;
    assert SkipBlanks(tail) == SkipBlanks(tail[1..]);
    WordOf(address, rest);
  }

  lemma LocalLineNamesLocal()
    ensures NamesServer()(LOCAL_LINE) && NamesLocal()(LOCAL_LINE)
  {
    assert LOCAL_LINE == NAMESERVER + LOOPBACK + "\n";
    ServerLine(LOOPBACK, "\n");
  }

  lemma NameserverIsServer(line: string)
    requires IsNameserver()(line)
    ensures NamesServer()(line)
  {
    assert line[..|NAMESERVER|] == NAMESERVER;
    assert forall i :: 0 <= i < |NAMESERVER| ==> line[i] == NAMESERVER[i];
    assert line[..|KEYWORD|] == KEYWORD;
  }

  // ----- options --------------------------------------------------------------------

  ghost predicate BlankFree(s: string) {
    forall i :: 0 <= i < |s| ==> !IsSpace(s[i])
  }

  /** The words of a line, separated by blanks. */
  function Words(s: string): seq<string>
    decreases |s|
  {
    var t := SkipBlanks(s);
    if t == "" then [] else [Word(t)] + Words(t[|Word(t)|..])
  }

  /** What stands behind the key in the first word that begins with it. */
  function Setting(words: seq<string>, key: string): Option<string> {
    if words == [] then None
    else if StartsWith(words[0], key) then Some(words[0][|key|..])
    else Setting(words[1..], key)
  }

  lemma WordsCons(word: string, rest: string)
    requires word != "" && BlankFree(word) && (rest == "" || IsSpace(rest[0]))
    ensures Words(word + rest) == [word] + Words(rest)
  {
    var s := word + rest;
    assert s[0] == word[0];
    WordOf(word, rest);
    assert s[|word|..] == rest;
  }

  lemma WordsBlank(c: char, rest: string)
    requires IsSpace(c)
    ensures Words([c] + rest) == Words(rest)
  {
    var s := [c] + rest;
    assert s[0] == c && s[1..] == rest;
    assert SkipBlanks(s) == SkipBlanks(rest);
  }

  /** A blank, a word, and what follows. */
  lemma NextWord(word: string, rest: string)
    requires word != "" && BlankFree(word) && (rest == "" || IsSpace(rest[0]))
    ensures Words(" " + (word + rest)) == [word] + Words(rest)
  {
    WordsBlank(' ', word + rest);
    WordsCons(word, rest);
  }

  lemma NewlineOnly()
    ensures Words("\n") == []
  {
    WordsBlank('\n', "");
    assert ['\n'] + "" == "\n";
  }

  /** The end of a line: perhaps one more word. */
  function LineEnd(more: string): string {
    if more == "" then "\n" else " " + (more + "\n")
  }

  lemma EndWords(more: string)
    requires BlankFree(more)
    ensures Words(LineEnd(more)) == if more == "" then [] else [more]
  {
    NewlineOnly();
    if more != "" {
      NextWord(more, "\n");
    }
  }

  /** Two words behind the first, and perhaps a third. */
  lemma OptionWords(first: string, a: string, b: string, more: string)
    requires first != "" && BlankFree(first) && a != "" && BlankFree(a) && b != "" && BlankFree(b) && BlankFree(more)
    ensures Words(first + (" " + (a + (" " + (b + LineEnd(more)))))) ==
            [first, a, b] + (if more == "" then [] else [more])
  {
    EndWords(more);
    NextWord(b, LineEnd(more));
    NextWord(a, " " + (b + LineEnd(more)));
    WordsCons(first, " " + (a + (" " + (b + LineEnd(more)))));
  }

  // ----- another address -----------------------------------------------------------------

  /** Another address that begins like the local one. */
  const NEIGHBOUR: string := "nameserver 127.0.0.11\n"

  lemma NeighbourPassesForLocal()
    ensures IsNameserver()(NEIGHBOUR) && IsLocal()(NEIGHBOUR)
    ensures NamesServer()(NEIGHBOUR) && !NamesLocal()(NEIGHBOUR)
    ensures Chunks(NEIGHBOUR) == [NEIGHBOUR]
  {
    assert NEIGHBOUR == NAMESERVER + "127.0.0.11" + "\n";
    ServerLine("127.0.0.11", "\n");
    assert |"127.0.0.11"| != |LOOPBACK|;
    assert NEIGHBOUR[..|NAMESERVER|] == NAMESERVER;
    assert NEIGHBOUR[..|LOCAL|] == LOCAL;
    LineCut(NEIGHBOUR, LIMIT);
    assert NEIGHBOUR[..|NEIGHBOUR|] == NEIGHBOUR && NEIGHBOUR[|NEIGHBOUR|..] == "";
  }
}
