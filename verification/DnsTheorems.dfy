/** Byte-level laws of the file rewrites, and the mode switch over whole runs. */
module DnsTheorems {
  import opened SeqOps
  import opened LineBuffer
  import opened DnsFiles
  import opened ResolvLines

  // ----- dropping lines ------------------------------------------------------

  /** Re-reading the rewritten file gives exactly the kept chunks. */
  lemma ChunksWithout(f: string, drop: string -> bool)
    ensures Chunks(Without(f, drop)) == Filter(Chunks(f), Not(drop))
  {
    JoinChunks(f);
    FilterIsCut(Chunks(f), Not(drop));
    ChunksJoin(Filter(Chunks(f), Not(drop)));
  }

  lemma {:induction false} FilterTwice(cs: seq<string>, p: string -> bool)
    ensures Filter(Filter(cs, p), p) == Filter(cs, p)
  {
    FilterAll(Filter(cs, p), p);
  }

  lemma WithoutIdempotent(f: string, drop: string -> bool)
    ensures Without(Without(f, drop), drop) == Without(f, drop)
  {
    ChunksWithout(f, drop);
    FilterTwice(Chunks(f), Not(drop));
  }

  // ----- inserting a line ------------------------------------------------------

  lemma {:induction false} MarkedIsCut(cs: seq<string>, at: string -> bool, already: string -> bool, marker: string)
    requires IsCut(cs) && Complete(marker)
    ensures IsCut(Marked(cs, at, already, marker))
    ensures cs != [] ==> Marked(cs, at, already, marker) != []
    decreases |cs|
  {
    if cs != [] {
      IsCutTail(cs);
      if at(cs[0]) {
        IsCutCons(marker, cs);
      } else {
        MarkedIsCut(cs[1..], at, already, marker);
        IsCutCons(cs[0], Marked(cs[1..], at, already, marker));
      }
    }
  }

  lemma ChunksMarked(f: string, at: string -> bool, already: string -> bool, marker: string)
    requires Complete(marker)
    ensures Chunks(MarkedFile(f, at, already, marker)) == Marked(Chunks(f), at, already, marker)
  {
    JoinChunks(f);
    MarkedIsCut(Chunks(f), at, already, marker);
    ChunksJoin(Marked(Chunks(f), at, already, marker));
  }

  lemma {:induction false} MarkedTwice(cs: seq<string>, at: string -> bool, already: string -> bool, marker: string)
    requires at(marker) && already(marker)
    ensures Marked(Marked(cs, at, already, marker), at, already, marker) == Marked(cs, at, already, marker)
    decreases |cs|
  {
    if cs != [] && !at(cs[0]) {
      MarkedTwice(cs[1..], at, already, marker);
      assert Marked(cs, at, already, marker)[1..] == Marked(cs[1..], at, already, marker);
    }
  }

  /** The filter that drops the marker does not see the insertion. */
  lemma {:induction false} MarkedFilter(cs: seq<string>, at: string -> bool, already: string -> bool, marker: string,
                                        keep: string -> bool)
    requires !keep(marker)
    ensures Filter(Marked(cs, at, already, marker), keep) == Filter(cs, keep)
    decreases |cs|
  {
    if cs != [] {
      if at(cs[0]) {
        assert ([marker] + cs)[1..] == cs;
      } else {
        MarkedFilter(cs[1..], at, already, marker, keep);
        assert Marked(cs, at, already, marker)[1..] == Marked(cs[1..], at, already, marker);
      }
    }
  }

  // ----- the local resolver -----------------------------------------------------

  lemma LocalLineComplete()
    ensures Complete(LOCAL_LINE)
  {
    LineCut(LOCAL_LINE, LIMIT);
  }

  lemma LocalLineLetters()
    ensures OPTIONS[0] !in LOCAL_LINE
  {
  }

  lemma LocalLineHasNoOptions()
    ensures !HasOptions()(LOCAL_LINE)
  {
    LocalLineLetters();
    NoWordWithout(LOCAL_LINE, OPTIONS);
  }

  lemma LocalLineStarts()
    ensures IsNameserver()(LOCAL_LINE) && IsLocal()(LOCAL_LINE)
  {
  }

  lemma LocalLineFacts()
    ensures Complete(LOCAL_LINE)
    ensures IsNameserver()(LOCAL_LINE) && IsLocal()(LOCAL_LINE)
    ensures !HasOptions()(LOCAL_LINE)
  {
    LocalLineComplete();
    LocalLineStarts();
    LocalLineHasNoOptions();
  }

  /** Deleting the local resolver twice is deleting it once, on any file. */
  lemma DeleteServerIdempotent(f: string)
    ensures DeleteServer(DeleteServer(f)) == DeleteServer(f)
  {
    WithoutIdempotent(f, IsLocal());
  }

  /** Inserting the local resolver twice is inserting it once, on any file. */
  lemma WriteServerIdempotent(f: string)
    ensures WriteServer(WriteServer(f)) == WriteServer(f)
  {
    LocalLineFacts();
    ChunksMarked(f, IsNameserver(), IsLocal(), LOCAL_LINE);
    MarkedTwice(Chunks(f), IsNameserver(), IsLocal(), LOCAL_LINE);
  }

  /** Deleting after inserting is deleting alone, on any file. */
  lemma DeleteAfterWrite(f: string)
    ensures DeleteServer(WriteServer(f)) == DeleteServer(f)
  {
    LocalLineFacts();
    ChunksMarked(f, IsNameserver(), IsLocal(), LOCAL_LINE);
    MarkedFilter(Chunks(f), IsNameserver(), IsLocal(), LOCAL_LINE, Not(IsLocal()));
  }

  // ----- what the prefix tests stand for ------------------------------------------

  /** The first line that names a server, if any, names the local one. */
  ghost predicate ServesLocalFirst(cs: seq<string>, server: string -> bool, local: string -> bool) {
    var k := FirstIndex(cs, server);
    k < |cs| ==> local(cs[k])
  }

  /** The first line that names a server names the local one, or is one the insertion
      puts the local one in front of. */
  ghost predicate FirstYields(cs: seq<string>, server: string -> bool, local: string -> bool,
                              at: string -> bool, already: string -> bool) {
    var k := FirstIndex(cs, server);
    k < |cs| ==> local(cs[k]) || (at(cs[k]) && !already(cs[k]))
  }

  lemma {:induction false} MarkedServesIff(cs: seq<string>, server: string -> bool, local: string -> bool,
                                           at: string -> bool, already: string -> bool, marker: string)
    requires server(marker) && local(marker) && forall c :: at(c) ==> server(c)
    ensures ServesLocalFirst(Marked(cs, at, already, marker), server, local) <==>
            FirstYields(cs, server, local, at, already)
    decreases |cs|
  {
    if cs != [] && !at(cs[0]) {
      MarkedServesIff(cs[1..], server, local, at, already, marker);
      assert Marked(cs, at, already, marker)[1..] == Marked(cs[1..], at, already, marker);
      assert forall i :: 0 <= i < |cs| - 1 ==> cs[1..][i] == cs[i + 1];
    }
  }

  /** Condition for an insertion: readable off the file before it. */
  ghost predicate FirstServerFits(cs: seq<string>) {
    FirstYields(cs, NamesServer(), NamesLocal(), IsNameserver(), IsLocal())
  }

  lemma MarkedLocalIff(cs: seq<string>)
    ensures ServesLocalFirst(Marked(cs, IsNameserver(), IsLocal(), LOCAL_LINE), NamesServer(), NamesLocal()) <==>
            FirstServerFits(cs)
  {
    LocalLineNamesLocal();
    forall c | IsNameserver()(c)
      ensures NamesServer()(c)
    {
      NameserverIsServer(c);
    }
    MarkedServesIff(cs, NamesServer(), NamesLocal(), IsNameserver(), IsLocal(), LOCAL_LINE);
  }

  /** After the insertion the first server is the local one exactly when the first
      server line before it was the local one's, or begins with the keyword and one
      space and does not merely begin like the local one's. */
  lemma InsertedServesIff(f: string)
    ensures ServesLocalFirst(Chunks(WriteServer(f)), NamesServer(), NamesLocal()) <==> FirstServerFits(Chunks(f))
  {
    LocalLineFacts();
    ChunksMarked(f, IsNameserver(), IsLocal(), LOCAL_LINE);
    MarkedLocalIff(Chunks(f));
  }

  lemma {:induction false} FilterSameIff(cs: seq<string>, p: string -> bool, q: string -> bool)
    ensures Filter(cs, p) == Filter(cs, q) <==> forall c :: c in cs ==> p(c) == q(c)
    decreases |cs|
  {
    if Filter(cs, p) == Filter(cs, q) {
      assert forall c :: c in cs && p(c) ==> c in Filter(cs, q);
      assert forall c :: c in cs && q(c) ==> c in Filter(cs, p);
    }
    if cs != [] && forall c :: c in cs ==> p(c) == q(c) {
      FilterSameIff(cs[1..], p, q);
    }
  }

  /** The deletion drops exactly the lines that name the local resolver exactly when the
      prefix test tells them apart from all others. */
  lemma DeletedExactlyIff(f: string)
    ensures Chunks(DeleteServer(f)) == Filter(Chunks(f), Not(NamesLocal())) <==>
            forall c :: c in Chunks(f) ==> IsLocal()(c) == NamesLocal()(c)
  {
    ChunksWithout(f, IsLocal());
    FilterSameIff(Chunks(f), Not(IsLocal()), Not(NamesLocal()));
    assert forall c :: Not(IsLocal())(c) == !IsLocal()(c) && Not(NamesLocal())(c) == !NamesLocal()(c);
  }

  /** A server whose address begins like the local one: nothing is inserted in front of
      it, and a deletion loses it. */
  lemma NeighbourMistaken()
    ensures WriteServer(NEIGHBOUR) == NEIGHBOUR
    ensures !ServesLocalFirst(Chunks(NEIGHBOUR), NamesServer(), NamesLocal())
    ensures DeleteServer(NEIGHBOUR) == ""
  {
    NeighbourPassesForLocal();
    assert Marked([NEIGHBOUR], IsNameserver(), IsLocal(), LOCAL_LINE) == [NEIGHBOUR];
    JoinChunks(NEIGHBOUR);
    FilterNone([NEIGHBOUR], Not(IsLocal()));
    FirstIndexUnique([NEIGHBOUR], NamesServer(), 0);
  }

  // ----- the copy for dnsmasq --------------------------------------------------------

  lemma CopiedChunks(f: string)
    ensures Chunks(CopiedServers(f)) == MarkedServers(Chunks(f))
  {
    LocalLineComplete();
    JoinChunks(f);
    FilterIsCut(Chunks(f), HasServerWord());
    MarkedIsCut(Filter(Chunks(f), HasServerWord()), LacksLocal(), Never(), LOCAL_LINE);
    ChunksJoin(MarkedServers(Chunks(f)));
  }

  /** Lines about other servers than the local one. */
  function OtherServers(): string -> bool {
    line => HasServerWord()(line) && LacksLocal()(line)
  }

  /** The copy has the same lines about other servers as resolv.conf, in the same order,
      and the local resolver directly in front of the first of them. */
  ghost predicate CopyAgrees(copy: seq<string>, resolv: seq<string>) {
    Filter(copy, LacksLocal()) == Filter(resolv, OtherServers()) &&
    var k := FirstIndex(copy, LacksLocal());
    k < |copy| ==> k > 0 && copy[k - 1] == LOCAL_LINE
  }

  lemma {:induction false} MarkedInFront(cs: seq<string>, at: string -> bool, marker: string)
    requires !at(marker)
    ensures var m := Marked(cs, at, Never(), marker);
            var k := FirstIndex(m, at);
            k < |m| ==> k > 0 && m[k - 1] == marker
    decreases |cs|
  {
    if cs != [] {
      var m := Marked(cs, at, Never(), marker);
      if at(cs[0]) {
        assert m == [marker] + cs;
        FirstIndexUnique(m, at, 1);
      } else {
        MarkedInFront(cs[1..], at, marker);
        assert m[1..] == Marked(cs[1..], at, Never(), marker);
      }
    }
  }

  lemma {:induction false} FilterBoth(cs: seq<string>, p: string -> bool, q: string -> bool, both: string -> bool)
    requires forall c :: both(c) == (p(c) && q(c))
    ensures Filter(Filter(cs, p), q) == Filter(cs, both)
    decreases |cs|
  {
    if cs != [] {
      FilterBoth(cs[1..], p, q, both);
      if p(cs[0]) {
        assert ([cs[0]] + Filter(cs[1..], p))[1..] == Filter(cs[1..], p);
      }
    }
  }

  lemma LocalLineMentionsLocal()
    ensures !LacksLocal()(LOCAL_LINE)
  {
    assert LOCAL_LINE[..|LOCAL|] == LOCAL;
  }

  lemma LocalMentionsLocal(line: string)
    requires IsLocal()(line)
    ensures !LacksLocal()(line)
  {
  }

  lemma CopyFollows(cs: seq<string>)
    ensures CopyAgrees(MarkedServers(cs), cs)
  {
    LocalLineMentionsLocal();
    MarkedInFront(Filter(cs, HasServerWord()), LacksLocal(), LOCAL_LINE);
    MarkedFilter(Filter(cs, HasServerWord()), LacksLocal(), Never(), LOCAL_LINE, LacksLocal());
    FilterBoth(cs, HasServerWord(), LacksLocal(), OtherServers());
  }

  /** Neither rewriting of the local resolver touches a line about another server. */
  lemma OthersStay(cs: seq<string>)
    ensures Filter(Marked(cs, IsNameserver(), IsLocal(), LOCAL_LINE), OtherServers()) == Filter(cs, OtherServers())
    ensures Filter(Filter(cs, Not(IsLocal())), OtherServers()) == Filter(cs, OtherServers())
  {
    LocalLineMentionsLocal();
    MarkedFilter(cs, IsNameserver(), IsLocal(), LOCAL_LINE, OtherServers());
    forall c
      ensures OtherServers()(c) == (Not(IsLocal())(c) && OtherServers()(c))
    {
      if IsLocal()(c) {
        LocalMentionsLocal(c);
      }
    }
    FilterBoth(cs, Not(IsLocal()), OtherServers(), OtherServers());
  }

  lemma CopyKeepsUp(r: string)
    ensures CopyAgrees(Chunks(CopiedServers(r)), Chunks(DeleteServer(r)))
    ensures CopyAgrees(Chunks(CopiedServers(r)), Chunks(WriteServer(r)))
  {
    CopiedChunks(r);
    CopyFollows(Chunks(r));
    OthersStay(Chunks(r));
    LocalLineComplete();
    ChunksWithout(r, IsLocal());
    ChunksMarked(r, IsNameserver(), IsLocal(), LOCAL_LINE);
  }

  /** After every update, whatever the files and the settings, the copy agrees with
      resolv.conf. */
  lemma UpdateCopies(c: Conf, s: Settings)
    ensures CopyAgrees(Chunks(Update(c, s).servers), Chunks(Update(c, s).resolv))
  {
    CopyKeepsUp(WriteOptions(c.resolv, OptionsText(s)));
  }

  // ----- the options line -----------------------------------------------------------

  /** An options text that stays on one line and inside the buffer. */
  ghost predicate OneLine(options: string) {
    |options| <= 199 && forall i :: 0 <= i < |options| ==> options[i] != '\n'
  }

  lemma OptionsLineFacts(options: string)
    requires OneLine(options)
    ensures Complete(OptionsLine(options)) && HasOptions()(OptionsLine(options))
    ensures !IsLocal()(OptionsLine(options))
  {
    var line := OptionsLine(options);
    LineCut(line, LIMIT);
    assert line[..|OPTIONS|] == OPTIONS;
    assert line[0] == 'o';
    assert line[0] != LOCAL[0];
  }

  /** The lines of resolv.conf that an update keeps before it rewrites the resolvers. */
  function Kept(cs: seq<string>): seq<string> {
    Filter(cs, Not(HasOptions()))
  }

  lemma KeptIsCut(f: string)
    ensures IsCut(Kept(Chunks(f))) && Chunks(Without(f, HasOptions())) == Kept(Chunks(f))
    ensures Join(Kept(Chunks(f))) == Without(f, HasOptions())
    ensures forall c :: c in Kept(Chunks(f)) ==> !HasOptions()(c)
  {
    JoinChunks(f);
    FilterIsCut(Chunks(f), Not(HasOptions()));
    ChunksWithout(f, HasOptions());
  }

  lemma OneChunk(line: string)
    requires Complete(line)
    ensures Chunks(line) == [line]
  {
    FirstChunk(line);
    assert line[..|line|] == line && line[|line|..] == "";
  }

  lemma OptionsLineShort(options: string)
    requires OneLine(options)
    ensures ShortLine(OptionsLine(options))
  {
    LineHasText(options);
    var line := OptionsLine(options);
    OptionsLineFacts(options);
    CutMeansLine(line, LIMIT);
    assert line[|line| - 1] == '\n';
  }

  lemma LineHasText(options: string)
    ensures var line := OptionsLine(options);
            |line| == |options| + 9 && forall i :: 0 <= i < |options| ==> line[8 + i] == options[i]
  {
  }

  /** The options line becomes a line of its own, behind the other lines, exactly when
      the last of those is complete: otherwise it is glued to it. */
  lemma WriteOptionsIff(f: string, options: string)
    requires OneLine(options)
    ensures var line := OptionsLine(options);
            LastComplete(Kept(Chunks(f))) ==> Chunks(WriteOptions(f, options)) == Kept(Chunks(f)) + [line]
    ensures OptionsLine(options) in Chunks(WriteOptions(f, options)) <==> LastComplete(Kept(Chunks(f)))
  {
    var line, kept, g := OptionsLine(options), Kept(Chunks(f)), Without(f, HasOptions());
    KeptIsCut(f);
    OptionsLineFacts(options);
    if LastComplete(kept) {
      LastCompleteIff(kept);
      AppendChunks(kept, line);
      OneChunk(line);
    } else {
      OptionsLineShort(options);
      AppendGlued(g, line);
      GluedNotAlone(kept[|kept| - 1], line);
      assert forall c :: c in kept[..|kept| - 1] ==> c in kept;
    }
  }

  /** Whatever text is appended, what ends in a newline is cut into complete chunks. */
  lemma WriteOptionsComplete(f: string, options: string)
    ensures AllComplete(Chunks(WriteOptions(f, options)))
  {
    var r := WriteOptions(f, options);
    assert r[|r| - 1] == OptionsLine(options)[|OptionsLine(options)| - 1] == '\n';
    NewlineTerminated(r);
  }

  // ----- the word in dnsmasq.conf -----------------------------------------------------

  /** Some line has the word, or there is room for it behind the last line. */
  ghost predicate WordFits(cs: seq<string>) {
    FirstIndex(cs, HasAllServers()) < |cs| || LastComplete(cs) || |cs[|cs| - 1]| + |ALL_SERVERS| <= LIMIT
  }

  ghost predicate HasLine(cs: seq<string>, p: string -> bool) {
    FirstIndex(cs, p) < |cs|
  }

  lemma HasLineIff(cs: seq<string>, p: string -> bool)
    ensures HasLine(cs, p) <==> exists c :: c in cs && p(c)
  {
    var i := FirstIndex(cs, p);
    if i < |cs| {
      assert cs[i] in cs;
    } else {
      assert forall k :: 0 <= k < |cs| ==> !p(cs[k]);
    }
  }

  const ALL_SERVERS_LINE: string := "all-servers\n"

  lemma AllServersLineFacts()
    ensures ALL_SERVERS_LINE == ALL_SERVERS + "\n" && ShortLine(ALL_SERVERS_LINE) && Complete(ALL_SERVERS_LINE)
    ensures HasAllServers()(ALL_SERVERS_LINE)
    ensures forall i :: 0 < i < |ALL_SERVERS_LINE| ==> ALL_SERVERS_LINE[i] != ALL_SERVERS[0]
    ensures forall i :: 0 < i < |ALL_SERVERS| ==> ALL_SERVERS[i] != ALL_SERVERS[0]
  {
    LineCut(ALL_SERVERS_LINE, LIMIT);
    assert ALL_SERVERS_LINE[..|ALL_SERVERS|] == ALL_SERVERS;
  }

  /** The end of the line alone does not have the word. */
  lemma TailHasNoWord(m: nat)
    requires 0 < m <= |ALL_SERVERS_LINE|
    ensures forall x :: x in Chunks(ALL_SERVERS_LINE[m..]) ==> !HasAllServers()(x)
  {
    var tail := ALL_SERVERS_LINE[m..];
    AllServersLineFacts();
    assert forall i :: 0 <= i < |tail| ==> tail[i] == ALL_SERVERS_LINE[m + i];
    forall x | x in Chunks(tail)
      ensures !HasAllServers()(x)
    {
      ChunksAreParts(tail, x);
      NoWordWithout(x, ALL_SERVERS);
    }
  }

  lemma BeginningHasNoWord(c: string, m: nat)
    requires !HasAllServers()(c) && m < |ALL_SERVERS|
    ensures !HasAllServers()(c + ALL_SERVERS_LINE[..m])
  {
    AllServersLineFacts();
    assert ALL_SERVERS[..m] == ALL_SERVERS_LINE[..m];
    NoWordAcross(c, ALL_SERVERS[..m], ALL_SERVERS);
  }

  lemma WholeHasWord(c: string, m: nat)
    requires |ALL_SERVERS| <= m <= |ALL_SERVERS_LINE|
    ensures HasAllServers()(c + ALL_SERVERS_LINE[..m])
  {
    AllServersLineFacts();
    var rest := ALL_SERVERS_LINE[|ALL_SERVERS|..m];
    assert c + ALL_SERVERS_LINE[..m] == c + ALL_SERVERS + rest;
    HasWordInside(c, ALL_SERVERS, rest);
  }

  lemma HasLineCons(x: string, cs: seq<string>, p: string -> bool)
    ensures HasLine([x] + cs, p) <==> p(x) || HasLine(cs, p)
  {
    assert ([x] + cs)[1..] == cs;
  }

  lemma NoLine(cs: seq<string>, p: string -> bool)
    requires forall x :: x in cs ==> !p(x)
    ensures !HasLine(cs, p)
  {
    HasLineIff(cs, p);
  }

  /** Behind a dangling chunk without the word it is readable exactly when it fits. */
  lemma GluedWordIff(c: string)
    requires Dangling(c) && !HasAllServers()(c)
    ensures HasLine(Chunks(c + ALL_SERVERS_LINE), HasAllServers()) <==> |c| + |ALL_SERVERS| <= LIMIT
  {
    var t := ALL_SERVERS_LINE;
    AllServersLineFacts();
    GluedChunks(c, t);
    if |c| + |t| <= LIMIT {
      WholeHasWord(c, |t|);
      assert t[..|t|] == t;
      HasLineCons(c + t, [], HasAllServers());
      assert [c + t] + [] == [c + t];
    } else {
      var m := LIMIT - |c|;
      HasLineCons(c + t[..m], Chunks(t[m..]), HasAllServers());
      TailHasNoWord(m);
      NoLine(Chunks(t[m..]), HasAllServers());
      if m < |ALL_SERVERS| {
        BeginningHasNoWord(c, m);
      } else {
        WholeHasWord(c, m);
      }
    }
  }

  /** Some line of dnsmasq.conf has the word exactly when it was asked for and it was
      there, or it fits behind the last line. */
  lemma AfterDnsmasq(f: string, options: string)
    ensures HasLine(Chunks(WriteDnsmasq(f, options)), HasAllServers()) <==>
            options == ALL_SERVERS && WordFits(Chunks(f))
  {
    var cs := Chunks(f);
    if options != ALL_SERVERS {
      ChunksWithout(f, HasAllServers());
      HasLineIff(Filter(cs, Not(HasAllServers())), HasAllServers());
    } else if !HasLine(cs, HasAllServers()) {
      AppendWordIff(f);
    }
  }

  lemma AppendWordIff(f: string)
    requires !HasLine(Chunks(f), HasAllServers())
    ensures HasLine(Chunks(f + ALL_SERVERS + "\n"), HasAllServers()) <==> WordFits(Chunks(f))
  {
    var cs, t := Chunks(f), ALL_SERVERS_LINE;
    AllServersLineFacts();
    assert f + ALL_SERVERS + "\n" == f + t;
    JoinChunks(f);
    HasLineIff(cs, HasAllServers());
    HasLineIff(Chunks(f + t), HasAllServers());
    if LastComplete(cs) {
      LastCompleteIff(cs);
      AppendChunks(cs, t);
      OneChunk(t);
      assert t in cs + [t];
    } else {
      AppendGlued(f, t);
      var init, c := cs[..|cs| - 1], cs[|cs| - 1];
      assert c in cs && forall x :: x in init ==> x in cs;
      GluedWordIff(c);
      HasLineIff(Chunks(c + t), HasAllServers());
    }
  }
}
