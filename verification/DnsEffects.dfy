/** What an update does to the lines of the three files, said with the words themselves. */
module DnsEffects {
  import opened SeqOps
  import opened LineBuffer
  import opened DnsFiles
  import opened ResolvLines
  import opened DnsTheorems

  /** Each line test is a search for one text. */
  lemma LineTests(line: string)
    ensures IsLocal()(line) <==> exists b: string :: line == "nameserver 127.0.0.1" + b
    ensures IsNameserver()(line) <==> exists b: string :: line == "nameserver " + b
    ensures HasServerWord()(line) <==> exists a: string, b: string :: line == a + "nameserver" + b
    ensures LacksLocal()(line) <==> !exists a: string, b: string :: line == a + "nameserver 127.0.0.1" + b
    ensures HasOptions()(line) <==> exists a: string, b: string :: line == a + "options" + b
    ensures HasAllServers()(line) <==> exists a: string, b: string :: line == a + "all-servers" + b
  {
    StartsMeans(line, "nameserver 127.0.0.1");
    StartsMeans(line, "nameserver ");
    HasWordMeans(line, "nameserver");
    HasWordMeans(line, "nameserver 127.0.0.1");
    HasWordMeans(line, "options");
    HasWordMeans(line, "all-servers");
  }

  lemma StartsMeans(line: string, word: string)
    ensures StartsWith(line, word) <==> exists b: string :: line == word + b
  {
    if StartsWith(line, word) {
      assert line == word + line[|word|..];
    }
  }

  // ----- what stays -----------------------------------------------------------------

  /** Lines that an update has no business with. */
  function Foreign(): string -> bool {
    line => !HasWord(line, "options") && !StartsWith(line, "nameserver 127.0.0.1")
  }

  lemma OwnLinesNotForeign(options: string)
    ensures !Foreign()(OptionsLine(options)) && !Foreign()(LOCAL_LINE)
  {
    HasWordInside("", "options", " " + options + "\n");
    assert OptionsLine(options) == "" + "options" + (" " + options + "\n");
    assert LOCAL_LINE[..20] == "nameserver 127.0.0.1";
  }

  /** Dropping lines that `keep` does not look at. */
  lemma DropUnseen(cs: seq<string>, drop: string -> bool, keep: string -> bool)
    requires forall c :: keep(c) ==> !drop(c)
    ensures Filter(Filter(cs, Not(drop)), keep) == Filter(cs, keep)
  {
    FilterBoth(cs, Not(drop), keep, keep);
  }

  lemma AddUnseen(cs: seq<string>, line: string, keep: string -> bool)
    requires !keep(line)
    ensures Filter(cs + [line], keep) == Filter(cs, keep)
  {
    FilterAppend(cs, [line], keep);
    assert Filter([line], keep) == [];
  }

  lemma ForeignAfterOptions(f: string, options: string)
    requires OneLine(options) && LastComplete(Kept(Chunks(f)))
    ensures Filter(Chunks(WriteOptions(f, options)), Foreign()) == Filter(Chunks(f), Foreign())
  {
    OwnLinesNotForeign(options);
    WriteOptionsIff(f, options);
    AddUnseen(Kept(Chunks(f)), OptionsLine(options), Foreign());
    DropUnseen(Chunks(f), HasOptions(), Foreign());
  }

  lemma ForeignAfterServers(r: string)
    ensures Filter(Chunks(DeleteServer(r)), Foreign()) == Filter(Chunks(r), Foreign())
    ensures Filter(Chunks(WriteServer(r)), Foreign()) == Filter(Chunks(r), Foreign())
  {
    OwnLinesNotForeign("");
    ChunksWithout(r, IsLocal());
    DropUnseen(Chunks(r), IsLocal(), Foreign());
    LocalLineComplete();
    ChunksMarked(r, IsNameserver(), IsLocal(), LOCAL_LINE);
    MarkedFilter(Chunks(r), IsNameserver(), IsLocal(), LOCAL_LINE, Foreign());
  }

  /** Lines that neither speak of options nor begin with the local resolver all stay, in
      their order, whatever the mode; nothing of their kind is added. */
  lemma ForeignLinesStay(c: Conf, s: Settings)
    requires OneLine(OptionsText(s)) && LastComplete(Kept(Chunks(c.resolv)))
    ensures Filter(Chunks(Update(c, s).resolv), Foreign()) == Filter(Chunks(c.resolv), Foreign())
  {
    ForeignAfterOptions(c.resolv, OptionsText(s));
    ForeignAfterServers(WriteOptions(c.resolv, OptionsText(s)));
  }

  function WithoutWord(): string -> bool {
    line => !HasWord(line, "all-servers")
  }

  /** So do the lines of dnsmasq.conf without the word. */
  lemma DnsmasqLinesStay(f: string, options: string)
    requires LastComplete(Chunks(f))
    ensures Filter(Chunks(WriteDnsmasq(f, options)), WithoutWord()) == Filter(Chunks(f), WithoutWord())
  {
    if options != ALL_SERVERS {
      ChunksWithout(f, HasAllServers());
      FilterBoth(Chunks(f), Not(HasAllServers()), WithoutWord(), WithoutWord());
    } else if FirstIndex(Chunks(f), HasAllServers()) == |Chunks(f)| {
      JoinChunks(f);
      LastCompleteIff(Chunks(f));
      AllServersLineFacts();
      AppendChunks(Chunks(f), ALL_SERVERS_LINE);
      OneChunk(ALL_SERVERS_LINE);
      assert f + ALL_SERVERS + "\n" == f + ALL_SERVERS_LINE;
      FilterAppend(Chunks(f), [ALL_SERVERS_LINE], WithoutWord());
      assert Filter([ALL_SERVERS_LINE], WithoutWord()) == [];
    }
  }

  // ----- the copy ---------------------------------------------------------------------

  lemma {:induction false} MarkedHolds(cs: seq<string>, at: string -> bool, already: string -> bool, marker: string)
    ensures forall c :: c in cs ==> c in Marked(cs, at, already, marker)
    ensures forall c :: c in Marked(cs, at, already, marker) ==> c in cs || c == marker
    ensures (forall c :: !already(c)) && (exists c :: c in cs && at(c)) ==> marker in Marked(cs, at, already, marker)
    decreases |cs|
  {
    if cs != [] && !at(cs[0]) {
      MarkedHolds(cs[1..], at, already, marker);
    }
  }

  /** The copy has every line that a resolver takes for a server, only lines with the word
      "nameserver" and the local resolver's, and the latter whenever some line has the word
      but not the local resolver. */
  lemma CopiedLines(f: string)
    ensures var copy := Chunks(CopiedServers(f));
            (forall c :: c in Chunks(f) && NamesServer()(c) ==> c in copy) &&
            (forall c :: c in copy ==> c == "nameserver 127.0.0.1\n" || (c in Chunks(f) && HasWord(c, "nameserver"))) &&
            ((exists c :: c in Chunks(f) && HasWord(c, "nameserver") && !HasWord(c, "nameserver 127.0.0.1")) ==>
               "nameserver 127.0.0.1\n" in copy)
  {
    CopiedChunks(f);
    MarkedHolds(Filter(Chunks(f), HasServerWord()), LacksLocal(), Never(), LOCAL_LINE);
    assert forall c :: NamesServer()(c) ==> HasServerWord()(c);
    if c :| c in Chunks(f) && HasWord(c, "nameserver") && !HasWord(c, "nameserver 127.0.0.1") {
      assert c in Filter(Chunks(f), HasServerWord()) && LacksLocal()(c);
    }
  }
}
