/** The mode switch over whole runs of updates. */
module DnsRuns {
  import opened Options
  import opened SeqOps
  import opened LineBuffer
  import opened DnsFiles
  import opened ResolvLines
  import opened DnsTheorems

  // ----- what an update is for ----------------------------------------------------------

  /** The resolver lines and options lines of the result of one update: one options
      line, at the end; no local resolver, or the local resolver first. */
  ghost predicate ResolvReflects(cs: seq<string>, s: Settings) {
    OptionsEnd(cs, OptionsLine(OptionsText(s)), HasOptions()) &&
    if Rotates(s) || InOrder(s) then Filter(cs, NamesLocal()) == []
    else ServesLocalFirst(cs, NamesServer(), NamesLocal())
  }

  /** What the file must be like for that before the update: the prefix test sees every
      line that names the local resolver, or the first server line fits. */
  ghost predicate ResolvFits(cs: seq<string>, s: Settings) {
    if Rotates(s) || InOrder(s) then forall c :: c in Kept(cs) && NamesLocal()(c) ==> IsLocal()(c)
    else FirstServerFits(Kept(cs))
  }

  ghost predicate Reflects(c: Conf, s: Settings) {
    ResolvReflects(Chunks(c.resolv), s) &&
    (HasLine(Chunks(c.dnsmasq), HasAllServers()) <==> !Rotates(s) && !InOrder(s))
  }

  /** The options text of the settings has no line break in it. */
  ghost predicate Printable(s: Settings) {
    OneLine(OptionsText(s))
  }

  lemma {:induction false} MarkedLast(cs: seq<string>, at: string -> bool, already: string -> bool, marker: string)
    requires cs != []
    ensures var m := Marked(cs, at, already, marker);
            m != [] && m[|m| - 1] == cs[|cs| - 1]
    decreases |cs|
  {
    if !at(cs[0]) && |cs| > 1 {
      MarkedLast(cs[1..], at, already, marker);
    }
  }

  lemma {:induction false} MarkedComplete(cs: seq<string>, at: string -> bool, already: string -> bool, marker: string)
    requires AllComplete(cs) && Complete(marker)
    ensures AllComplete(Marked(cs, at, already, marker))
    decreases |cs|
  {
    if cs != [] && !at(cs[0]) {
      MarkedComplete(cs[1..], at, already, marker);
    }
  }

  lemma {:induction false} MarkedFrom(cs: seq<string>, at: string -> bool, already: string -> bool, marker: string)
    ensures forall c :: c in Marked(cs, at, already, marker) ==> c in cs || c == marker
    decreases |cs|
  {
    if cs != [] && !at(cs[0]) {
      MarkedFrom(cs[1..], at, already, marker);
    }
  }

  lemma OptionsOnlyLast(kept: seq<string>, line: string, p: string -> bool)
    requires forall c :: c in kept ==> !p(c)
    requires p(line)
    ensures Filter(kept + [line], p) == [line]
  {
    FilterAppend(kept, [line], p);
    FilterNone(kept, p);
    assert [line][1..] == [];
  }

  lemma OptionsLineIsNoServer(options: string)
    ensures !NamesServer()(OptionsLine(options)) && !NamesLocal()(OptionsLine(options))
  {
    assert OptionsLine(options)[0] == 'o';
  }

  lemma NoneLeftIff(cs: seq<string>, p: string -> bool)
    ensures Filter(cs, p) == [] <==> forall c :: c in cs ==> !p(c)
  {
    if forall c :: c in cs ==> !p(c) {
      FilterNone(cs, p);
    }
    assert forall c :: c in cs && p(c) ==> c in Filter(cs, p);
  }

  lemma DroppedWithLast(kept: seq<string>, line: string, drop: string -> bool, p: string -> bool)
    requires (forall c :: c in kept ==> !p(c)) && p(line) && !drop(line)
    ensures OptionsEnd(Filter(kept + [line], Not(drop)), line, p)
  {
    FilterAppend(kept, [line], Not(drop));
    assert [line][1..] == [] && Filter([line], Not(drop)) == [line];
    OptionsOnlyLast(Filter(kept, Not(drop)), line, p);
  }

  ghost predicate OptionsEnd(cs: seq<string>, line: string, p: string -> bool) {
    Filter(cs, p) == [line] && cs != [] && cs[|cs| - 1] == line
  }

  lemma NoneLeftBehind(kept: seq<string>, line: string, drop: string -> bool, local: string -> bool)
    requires !local(line)
    ensures Filter(Filter(kept + [line], Not(drop)), local) == [] <==> forall c :: c in kept && local(c) ==> drop(c)
  {
    var cs := Filter(kept + [line], Not(drop));
    NoneLeftIff(cs, local);
    assert forall c :: c in cs <==> (c in kept || c == line) && !drop(c);
  }

  lemma AfterDelete(f: string, s: Settings)
    requires LastComplete(Kept(Chunks(f))) && Printable(s) && (Rotates(s) || InOrder(s))
    ensures var r := DeleteServer(WriteOptions(f, OptionsText(s)));
            ResolvReflects(Chunks(r), s) <==> ResolvFits(Chunks(f), s)
  {
    var line, kept := OptionsLine(OptionsText(s)), Kept(Chunks(f));
    WriteOptionsIff(f, OptionsText(s));
    OptionsLineFacts(OptionsText(s));
    OptionsLineIsNoServer(OptionsText(s));
    ChunksWithout(WriteOptions(f, OptionsText(s)), IsLocal());
    DroppedWithLast(kept, line, IsLocal(), HasOptions());
    NoneLeftBehind(kept, line, IsLocal(), NamesLocal());
  }

  lemma MarkedWithLast(kept: seq<string>, line: string, at: string -> bool, already: string -> bool, marker: string,
                       p: string -> bool)
    requires (forall c :: c in kept ==> !p(c)) && p(line) && !p(marker)
    ensures OptionsEnd(Marked(kept + [line], at, already, marker), line, p)
  {
    var cs := kept + [line];
    MarkedLast(cs, at, already, marker);
    MarkedFilter(cs, at, already, marker, p);
    OptionsOnlyLast(kept, line, p);
  }

  lemma WrittenChunks(f: string, options: string)
    requires LastComplete(Kept(Chunks(f))) && OneLine(options)
    ensures Chunks(WriteServer(WriteOptions(f, options))) ==
            Marked(Kept(Chunks(f)) + [OptionsLine(options)], IsNameserver(), IsLocal(), LOCAL_LINE)
  {
    WriteOptionsIff(f, options);
    LocalLineComplete();
    ChunksMarked(WriteOptions(f, options), IsNameserver(), IsLocal(), LOCAL_LINE);
  }

  lemma FitsAppend(kept: seq<string>, line: string, server: string -> bool, local: string -> bool,
                   at: string -> bool, already: string -> bool)
    requires !server(line)
    ensures FirstYields(kept + [line], server, local, at, already) <==> FirstYields(kept, server, local, at, already)
  {
    var k := FirstIndex(kept, server);
    FirstIndexUnique(kept + [line], server, if k < |kept| then k else |kept| + 1);
  }

  lemma AfterWrite(f: string, s: Settings)
    requires LastComplete(Kept(Chunks(f))) && Printable(s) && !Rotates(s) && !InOrder(s)
    ensures var r := WriteServer(WriteOptions(f, OptionsText(s)));
            ResolvReflects(Chunks(r), s) <==> ResolvFits(Chunks(f), s)
  {
    var line, kept := OptionsLine(OptionsText(s)), Kept(Chunks(f));
    WrittenChunks(f, OptionsText(s));
    OptionsLineFacts(OptionsText(s));
    LocalLineFacts();
    MarkedWithLast(kept, line, IsNameserver(), IsLocal(), LOCAL_LINE, HasOptions());
    MarkedLocalIff(kept + [line]);
    OptionsLineIsNoServer(OptionsText(s));
    FitsAppend(kept, line, NamesServer(), NamesLocal(), IsNameserver(), IsLocal());
    EndReflects(Marked(kept + [line], IsNameserver(), IsLocal(), LOCAL_LINE), s);
  }

  lemma EndReflects(m: seq<string>, s: Settings)
    requires !Rotates(s) && !InOrder(s) && OptionsEnd(m, OptionsLine(OptionsText(s)), HasOptions())
    ensures ResolvReflects(m, s) <==> ServesLocalFirst(m, NamesServer(), NamesLocal())
  {
  }

  /** The text must be one line for that: an update whose options text holds a line
      break never leaves exactly that one options line. */
  lemma ReflectingNeedsOneLine(f: string, s: Settings)
    requires ResolvReflects(Chunks(f), s)
    ensures Printable(s)
  {
    var options := OptionsText(s);
    var line := OptionsLine(options);
    JoinChunks(f);
    CutMeansLine(line, LIMIT);
    LineHasText(options);
    forall i | 0 <= i < |options|
      ensures options[i] != '\n'
    {
      assert line[8 + i] == options[i];
    }
  }

  /** And the options line must not be glued to the line before it. */
  lemma ReflectingNeedsOwnLine(f: string, s: Settings)
    requires Printable(s) && !LastComplete(Kept(Chunks(f)))
    ensures var r := WriteOptions(f, OptionsText(s));
            !ResolvReflects(Chunks(DeleteServer(r)), s) && !ResolvReflects(Chunks(WriteServer(r)), s)
  {
    var line, r := OptionsLine(OptionsText(s)), WriteOptions(f, OptionsText(s));
    WriteOptionsIff(f, OptionsText(s));
    OptionsLineFacts(OptionsText(s));
    LocalLineFacts();
    ChunksWithout(r, IsLocal());
    ChunksMarked(r, IsNameserver(), IsLocal(), LOCAL_LINE);
    MarkedFrom(Chunks(r), IsNameserver(), IsLocal(), LOCAL_LINE);
    assert line !in Chunks(DeleteServer(r)) && line !in Chunks(WriteServer(r));
    EndIsThere(Chunks(DeleteServer(r)), s);
    EndIsThere(Chunks(WriteServer(r)), s);
  }

  lemma EndIsThere(cs: seq<string>, s: Settings)
    ensures ResolvReflects(cs, s) ==> OptionsLine(OptionsText(s)) in cs
  {
  }

  /** Everything an update needs: a one-line options text, a complete line to put it
      behind, a file on which the prefix tests do not err, and room for the word. */
  ghost predicate UpdateFits(c: Conf, s: Settings) {
    Printable(s) && LastComplete(Kept(Chunks(c.resolv))) && ResolvFits(Chunks(c.resolv), s) &&
    (Rotates(s) || InOrder(s) || WordFits(Chunks(c.dnsmasq)))
  }

  lemma ResolvReflectsIff(f: string, s: Settings)
    ensures var r := WriteOptions(f, OptionsText(s));
            ResolvReflects(Chunks(if Rotates(s) || InOrder(s) then DeleteServer(r) else WriteServer(r)), s) <==>
            Printable(s) && LastComplete(Kept(Chunks(f))) && ResolvFits(Chunks(f), s)
  {
    var r := WriteOptions(f, OptionsText(s));
    var after := if Rotates(s) || InOrder(s) then DeleteServer(r) else WriteServer(r);
    if !Printable(s) {
      if ResolvReflects(Chunks(after), s) {
        ReflectingNeedsOneLine(after, s);
      }
    } else if !LastComplete(Kept(Chunks(f))) {
      ReflectingNeedsOwnLine(f, s);
    } else if Rotates(s) || InOrder(s) {
      AfterDelete(f, s);
    } else {
      AfterWrite(f, s);
    }
  }

  /** One update has its effect exactly when all of that is so, on any files. */
  lemma UpdateReflectsIff(c: Conf, s: Settings)
    ensures Reflects(Update(c, s), s) <==> UpdateFits(c, s)
  {
    AfterDnsmasq(c.dnsmasq, if Rotates(s) then "rotate" else if InOrder(s) then "strict-order" else "all-servers");
    ResolvReflectsIff(c.resolv, s);
  }

  function UpdateAll(c: Conf, us: seq<Settings>): Conf {
    if us == [] then c else Update(UpdateAll(c, us[..|us| - 1]), us[|us| - 1])
  }

  /** Over every run of updates on any files, whatever the earlier ones were, the last one
      decides: resolv.conf ends with its options line and has no other, the local resolver
      is the first server or is absent, "all-servers" is in dnsmasq.conf or not. That holds
      exactly when the files that the last update meets fit. */
  lemma LastModeWins(c: Conf, us: seq<Settings>)
    requires us != []
    ensures Reflects(UpdateAll(c, us), us[|us| - 1]) <==> UpdateFits(UpdateAll(c, us[..|us| - 1]), us[|us| - 1])
  {
    UpdateReflectsIff(UpdateAll(c, us[..|us| - 1]), us[|us| - 1]);
  }

  // ----- what a resolver reads after an update ---------------------------------------------

  /** Settings without blanks, short enough for the buffer of the text. */
  ghost predicate PlainSettings(s: Settings) {
    BlankFree(s.timeout) && BlankFree(s.attempts) &&
    18 + |if s.timeout == "" then "5" else s.timeout| + |if s.attempts == "" then "2" else s.attempts| +
    (if s.kind == "rotate" then 7 else 0) <= 199
  }

  lemma KindWord(kind: string)
    ensures BlankFree(if kind == "rotate" then "rotate" else "")
  {
  }

  lemma JoinText(t: string, a: string, more: string)
    requires more == "" || more == "rotate"
    ensures "options " + ("timeout:" + t + " attempts:" + a + (if more == "" then "" else " " + more)) + "\n" ==
            "options" + (" " + (("timeout:" + t) + (" " + (("attempts:" + a) + LineEnd(more)))))
  {
  }

  lemma BlankFreeWord(key: string, value: string)
    requires BlankFree(key) && BlankFree(value) && key != ""
    ensures BlankFree(key + value) && key + value != ""
  {
  }

  /** The options line in words. */
  lemma OptionsLineWords(s: Settings)
    requires PlainSettings(s)
    ensures Words(OptionsLine(OptionsText(s))) ==
            ["options", "timeout:" + (if s.timeout == "" then "5" else s.timeout),
             "attempts:" + (if s.attempts == "" then "2" else s.attempts)] +
            (if s.kind == "rotate" then ["rotate"] else [])
  {
    var t, a := if s.timeout == "" then "5" else s.timeout, if s.attempts == "" then "2" else s.attempts;
    var more := if s.kind == "rotate" then "rotate" else "";
    KindWord(s.kind);
    BlankFreeWord("timeout:", t);
    BlankFreeWord("attempts:", a);
    JoinText(t, a, more);
    assert OptionsText(s) == "timeout:" + t + " attempts:" + a + (if more == "" then "" else " " + more);
    OptionWords("options", "timeout:" + t, "attempts:" + a, more);
  }

  lemma SettingOf(key: string, value: string, before: string, rest: seq<string>)
    requires before == "" || !StartsWith(before, key)
    ensures Setting((if before == "" then [] else [before]) + [key + value] + rest, key) == Some(value)
  {
    var words := [key + value] + rest;
    assert (key + value)[..|key|] == key && (key + value)[|key|..] == value;
    assert Setting(words, key) == Some(value);
    if before == "" {
      assert [] + [key + value] + rest == words;
    } else {
      assert ([before] + [key + value] + rest)[1..] == words;
    }
  }

  lemma SettingsOf(t: string, a: string, more: seq<string>)
    ensures var words := ["timeout:" + t, "attempts:" + a] + more;
            Setting(words, "timeout:") == Some(t) && Setting(words, "attempts:") == Some(a)
  {
    var words := ["timeout:" + t, "attempts:" + a] + more;
    assert words == [] + ["timeout:" + t] + (["attempts:" + a] + more);
    SettingOf("timeout:", t, "", ["attempts:" + a] + more);
    assert words == ["timeout:" + t] + ["attempts:" + a] + more;
    assert ("timeout:" + t)[0] == 't' && ("attempts:" + a)[0] == 'a';
    SettingOf("attempts:", a, "timeout:" + t, more);
  }

  /** A resolver reads the timeout, 5 when none is set, the attempts, 2 when none is set,
      and to rotate exactly for that type. */
  lemma OptionsRead(s: Settings)
    requires PlainSettings(s)
    ensures var words := Words(OptionsLine(OptionsText(s)));
            |words| >= 3 && words[0] == "options" &&
            Setting(words[1..], "timeout:") == Some(if s.timeout == "" then "5" else s.timeout) &&
            Setting(words[1..], "attempts:") == Some(if s.attempts == "" then "2" else s.attempts) &&
            ("rotate" in words <==> s.kind == "rotate")
    ensures Printable(s)
  {
    var t, a := if s.timeout == "" then "5" else s.timeout, if s.attempts == "" then "2" else s.attempts;
    var more := if s.kind == "rotate" then ["rotate"] else [];
    OptionsLineWords(s);
    assert Words(OptionsLine(OptionsText(s)))[1..] == ["timeout:" + t, "attempts:" + a] + more;
    SettingsOf(t, a, more);
    assert ("timeout:" + t)[0] == 't' && ("attempts:" + a)[0] == 'a';
    TextHasNoBreak(s);
  }

  lemma TextHasNoBreak(s: Settings)
    requires PlainSettings(s)
    ensures Printable(s)
  {
    var t, a := OrDefault(s.timeout, "5"), OrDefault(s.attempts, "2");
    assert forall i :: 0 <= i < |t| ==> t[i] != '\n';
    assert forall i :: 0 <= i < |a| ==> a[i] != '\n';
  }

  /** The last line, the one options line, reads as the settings. */
  ghost predicate OptionsReadAs(cs: seq<string>, s: Settings) {
    cs != [] && Filter(cs, HasOptions()) == [cs[|cs| - 1]] &&
    var words := Words(cs[|cs| - 1]);
    |words| >= 3 && words[0] == "options" &&
    Setting(words[1..], "timeout:") == Some(if s.timeout == "" then "5" else s.timeout) &&
    Setting(words[1..], "attempts:") == Some(if s.attempts == "" then "2" else s.attempts) &&
    ("rotate" in words <==> s.kind == "rotate")
  }

  /** For the types "rotate" and "order" and for none, no line names the local resolver or
      has the word in dnsmasq.conf; for any other type the local resolver is first and the
      word is there. */
  ghost predicate ServersReadAs(cs: seq<string>, dnsmasq: seq<string>, kind: string) {
    if kind == "rotate" || kind == "order" || kind == "" then
      (forall x :: x in cs ==> !NamesLocal()(x)) && forall x :: x in dnsmasq ==> !HasWord(x, "all-servers")
    else
      ServesLocalFirst(cs, NamesServer(), NamesLocal()) && exists x :: x in dnsmasq && HasWord(x, "all-servers")
  }

  lemma OptionsEndReads(cs: seq<string>, s: Settings)
    requires PlainSettings(s) && OptionsEnd(cs, OptionsLine(OptionsText(s)), HasOptions())
    ensures OptionsReadAs(cs, s)
  {
    OptionsRead(s);
  }

  lemma ReflectsServers(c: Conf, s: Settings)
    requires Reflects(c, s)
    ensures ServersReadAs(Chunks(c.resolv), Chunks(c.dnsmasq), s.kind)
  {
    NoneLeftIff(Chunks(c.resolv), NamesLocal());
    HasLineIff(Chunks(c.dnsmasq), HasAllServers());
    assert forall x :: HasAllServers()(x) == HasWord(x, "all-servers");
  }

  /** After every run of updates, when the files that the last one meets fit and its
      settings are plain, the files read as those settings. */
  lemma LastUpdateReads(c: Conf, us: seq<Settings>)
    requires us != [] && PlainSettings(us[|us| - 1])
    requires UpdateFits(UpdateAll(c, us[..|us| - 1]), us[|us| - 1])
    ensures var s, after := us[|us| - 1], UpdateAll(c, us);
            OptionsReadAs(Chunks(after.resolv), s) &&
            ServersReadAs(Chunks(after.resolv), Chunks(after.dnsmasq), s.kind)
  {
    var s, after := us[|us| - 1], UpdateAll(c, us);
    LastModeWins(c, us);
    OptionsEndReads(Chunks(after.resolv), s);
    ReflectsServers(after, s);
  }

  // ----- newline-terminated files ----------------------------------------------------------

  ghost predicate Terminated(c: Conf) {
    AllComplete(Chunks(c.resolv)) && AllComplete(Chunks(c.dnsmasq))
  }

  lemma DnsmasqStaysTerminated(f: string, options: string)
    requires AllComplete(Chunks(f))
    ensures AllComplete(Chunks(WriteDnsmasq(f, options)))
  {
    if options != ALL_SERVERS {
      ChunksWithout(f, HasAllServers());
      FilterComplete(Chunks(f), Not(HasAllServers()));
    } else {
      NewlineTerminated(f + ALL_SERVERS + "\n");
    }
  }

  lemma UpdateStaysTerminated(c: Conf, s: Settings)
    requires Terminated(c)
    ensures Terminated(Update(c, s))
  {
    var r := WriteOptions(c.resolv, OptionsText(s));
    WriteOptionsComplete(c.resolv, OptionsText(s));
    ChunksWithout(r, IsLocal());
    FilterComplete(Chunks(r), Not(IsLocal()));
    LocalLineComplete();
    ChunksMarked(r, IsNameserver(), IsLocal(), LOCAL_LINE);
    MarkedComplete(Chunks(r), IsNameserver(), IsLocal(), LOCAL_LINE);
    DnsmasqStaysTerminated(c.dnsmasq,
                           if Rotates(s) then "rotate" else if InOrder(s) then "strict-order" else "all-servers");
  }

  lemma {:induction false} StaysTerminated(c: Conf, us: seq<Settings>)
    requires Terminated(c)
    ensures Terminated(UpdateAll(c, us))
  {
    if us != [] {
      StaysTerminated(c, us[..|us| - 1]);
      UpdateStaysTerminated(UpdateAll(c, us[..|us| - 1]), us[|us| - 1]);
    }
  }

  lemma TerminatedFiles(c: Conf)
    requires c.resolv == "" || c.resolv[|c.resolv| - 1] == '\n'
    requires c.dnsmasq == "" || c.dnsmasq[|c.dnsmasq| - 1] == '\n'
    ensures Terminated(c)
  {
    NewlineTerminated(c.resolv);
    NewlineTerminated(c.dnsmasq);
  }

  /** Newline-terminated files stay so, so that only text and prefix tests are left of
      the condition. */
  lemma TerminatedRunFits(c: Conf, us: seq<Settings>)
    requires us != [] && Terminated(c)
    ensures var before, last := UpdateAll(c, us[..|us| - 1]), us[|us| - 1];
            UpdateFits(before, last) <==> Printable(last) && ResolvFits(Chunks(before.resolv), last)
  {
    StaysTerminated(c, us[..|us| - 1]);
    var before := UpdateAll(c, us[..|us| - 1]);
    FilterComplete(Chunks(before.resolv), Not(HasOptions()));
  }

  // ----- plainly written files -----------------------------------------------------------

  /** A line on which the prefix tests are right. */
  ghost predicate PlainLine(line: string) {
    (NamesServer()(line) ==> IsNameserver()(line)) && (IsLocal()(line) <==> NamesLocal()(line))
  }

  ghost predicate Plain(cs: seq<string>) {
    forall c :: c in cs ==> PlainLine(c)
  }

  lemma PlainFits(cs: seq<string>, s: Settings)
    requires Plain(cs)
    ensures ResolvFits(cs, s)
  {
    var kept := Kept(cs);
    var k := FirstIndex(kept, NamesServer());
    assert k < |kept| ==> kept[k] in kept;
  }

  lemma PlainMembers(a: seq<string>, b: seq<string>, extra: seq<string>)
    requires Plain(a) && (forall c :: c in extra ==> PlainLine(c)) && forall c :: c in b ==> c in a || c in extra
    ensures Plain(b)
  {
  }

  lemma OwnLinesPlain(options: string)
    requires OneLine(options)
    ensures PlainLine(LOCAL_LINE) && PlainLine(OptionsLine(options))
  {
    LocalLineStarts();
    LocalLineNamesLocal();
    OptionsLineFacts(options);
    OptionsLineIsNoServer(options);
  }

  lemma UpdateStaysPlain(c: Conf, s: Settings)
    requires Terminated(c) && Printable(s) && Plain(Chunks(c.resolv))
    ensures Plain(Chunks(Update(c, s).resolv))
  {
    var f, options := c.resolv, OptionsText(s);
    var own := [LOCAL_LINE, OptionsLine(options)];
    var r := WriteOptions(f, options);
    OwnLinesPlain(options);
    FilterComplete(Chunks(f), Not(HasOptions()));
    WriteOptionsIff(f, options);
    LocalLineComplete();
    ChunksWithout(r, IsLocal());
    ChunksMarked(r, IsNameserver(), IsLocal(), LOCAL_LINE);
    MarkedFrom(Chunks(r), IsNameserver(), IsLocal(), LOCAL_LINE);
    PlainMembers(Chunks(f), Chunks(r), own);
    PlainMembers(Chunks(r), Chunks(Update(c, s).resolv), own);
  }

  lemma {:induction false} StaysPlain(c: Conf, us: seq<Settings>)
    requires Terminated(c) && Plain(Chunks(c.resolv)) && forall i :: 0 <= i < |us| ==> Printable(us[i])
    ensures Plain(Chunks(UpdateAll(c, us).resolv))
  {
    if us != [] {
      var before := us[..|us| - 1];
      StaysTerminated(c, before);
      StaysPlain(c, before);
      UpdateStaysPlain(UpdateAll(c, before), us[|us| - 1]);
    }
  }

  /** Starting from a plainly written file, one-line options texts keep it so, and the
      last mode always wins. */
  lemma PlainFilesReflect(c: Conf, us: seq<Settings>)
    requires us != [] && Terminated(c) && Plain(Chunks(c.resolv))
    requires forall i :: 0 <= i < |us| ==> Printable(us[i])
    ensures Reflects(UpdateAll(c, us), us[|us| - 1])
  {
    var before := us[..|us| - 1];
    StaysPlain(c, before);
    PlainFits(Chunks(UpdateAll(c, before).resolv), us[|us| - 1]);
    TerminatedRunFits(c, us);
    LastModeWins(c, us);
  }

  lemma UnterminatedKept()
    ensures Kept(Chunks(LOCAL)) == [LOCAL] && !LastComplete(Kept(Chunks(LOCAL)))
  {
    LineCutShort(LOCAL);
    assert LOCAL[..|LOCAL|] == LOCAL && LOCAL[|LOCAL|..] == "";
    assert Chunks(LOCAL) == [LOCAL];
    LocalHasNoOptions();
    FilterAll([LOCAL], Not(HasOptions()));
  }

  /** A file without a newline at its end: the options text is glued to the resolver. */
  lemma MissingNewlineGlues(s: Settings)
    ensures !Reflects(Update(Conf(LOCAL, "", ""), s), s)
  {
    UnterminatedKept();
    UpdateReflectsIff(Conf(LOCAL, "", ""), s);
  }

  lemma LocalHasNoOptions()
    ensures !HasOptions()(LOCAL)
  {
    NoWordWithout(LOCAL, OPTIONS);
  }

  lemma LineCutShort(s: string)
    requires s == LOCAL
    ensures Cut(s, LIMIT) == |s| && !Complete(s)
  {
    NoBreakCut(s, LIMIT);
  }

  lemma {:induction false} NoBreakCut(s: string, n: nat)
    requires |s| <= n && forall i :: 0 <= i < |s| ==> s[i] != '\n'
    ensures Cut(s, n) == |s|
  {
    if s != "" {
      NoBreakCut(s[1..], n - 1);
    }
  }

  const BROKEN: Settings := Settings("order", "5\n", "2")

  lemma BrokenIsNotPrintable()
    ensures !Printable(BROKEN)
  {
    var text := "timeout:" + "5\n" + " attempts:" + "2" + "";
    assert |text| <= 199 && text[9] == '\n';
    assert OptionsText(BROKEN) == text;
  }

  /** A timeout with a line break in it: on no file does the update leave the one line. */
  lemma LineBreakSplitsOptions(c: Conf)
    ensures !Reflects(Update(c, BROKEN), BROKEN)
  {
    BrokenIsNotPrintable();
    if Reflects(Update(c, BROKEN), BROKEN) {
      ReflectingNeedsOneLine(Update(c, BROKEN).resolv, BROKEN);
    }
  }
}
