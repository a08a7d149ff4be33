/** The rewriting of resolv.conf and dnsmasq.conf. */
module DnsFiles {
  import opened SeqOps
  import opened LineBuffer

  const LOCAL: string := "nameserver 127.0.0.1"
  const LOCAL_LINE: string := "nameserver 127.0.0.1\n"
  const NAMESERVER: string := "nameserver "
  const SERVER_WORD: string := "nameserver"
  const OPTIONS: string := "options"
  const ALL_SERVERS: string := "all-servers"

  function IsLocal(): string -> bool {
    line => StartsWith(line, LOCAL)
  }

  function IsNameserver(): string -> bool {
    line => StartsWith(line, NAMESERVER)
  }

  function HasServerWord(): string -> bool {
    line => HasWord(line, SERVER_WORD)
  }

  function LacksLocal(): string -> bool {
    line => !HasWord(line, LOCAL)
  }

  function Never(): string -> bool {
    line => false
  }

  function HasOptions(): string -> bool {
    line => HasWord(line, OPTIONS)
  }

  function HasAllServers(): string -> bool {
    line => HasWord(line, ALL_SERVERS)
  }

  // ----- the rewrites on whole files -------------------------------------------

  function Without(f: string, drop: string -> bool): string {
    Join(Filter(Chunks(f), Not(drop)))
  }

  lemma WithoutStep(rest: string, line: string, left: string, drop: string -> bool)
    requires Chunks(rest) == [line] + Chunks(left)
    ensures Without(rest, drop) == (if drop(line) then "" else line) + Without(left, drop)
  {
  }

  lemma WithoutEnd(drop: string -> bool)
    ensures Without("", drop) == ""
  {
  }

  function DeleteServer(f: string): string {
    Without(f, IsLocal())
  }

  /** `marker` in front of the first line that `at` picks, unless `already` accepts it. */
  function Marked(cs: seq<string>, at: string -> bool, already: string -> bool, marker: string): seq<string> {
    if cs == [] then []
    else if at(cs[0]) then (if already(cs[0]) then cs else [marker] + cs)
    else [cs[0]] + Marked(cs[1..], at, already, marker)
  }

  function MarkedFile(f: string, at: string -> bool, already: string -> bool, marker: string): string {
    Join(Marked(Chunks(f), at, already, marker))
  }

  /** The local resolver in front of the first nameserver line, unless that is it. */
  function WriteServer(f: string): string {
    MarkedFile(f, IsNameserver(), IsLocal(), LOCAL_LINE)
  }

  lemma MarkedStep(rest: string, line: string, left: string, at: string -> bool, already: string -> bool,
                   marker: string)
    requires Chunks(rest) == [line] + Chunks(left) && line + left == rest
    ensures MarkedFile(rest, at, already, marker) ==
            if at(line) then (if already(line) then rest else marker + rest)
            else line + MarkedFile(left, at, already, marker)
  {
    assert ([line] + Chunks(left))[1..] == Chunks(left);
    JoinChunks(rest);
    JoinCons(line, Marked(Chunks(left), at, already, marker));
    JoinCons(marker, Chunks(rest));
  }

  /** The lines with the server word, and the local resolver in front of the first of
      them that does not mention it. */
  function CopiedServers(f: string): string {
    Join(MarkedServers(Chunks(f)))
  }

  function MarkedServers(cs: seq<string>): seq<string> {
    Marked(Filter(cs, HasServerWord()), LacksLocal(), Never(), LOCAL_LINE)
  }

  /** One turn of the copying loop, for any line tests. */
  lemma CopyStep(cs: seq<string>, word: string -> bool, at: string -> bool, marker: string)
    requires cs != []
    ensures var rest := Filter(cs[1..], word);
            Join(Filter(cs, word)) == (if word(cs[0]) then cs[0] else "") + Join(rest) &&
            Join(Marked(Filter(cs, word), at, Never(), marker)) ==
            if !word(cs[0]) then Join(Marked(rest, at, Never(), marker))
            else if at(cs[0]) then marker + (cs[0] + Join(rest))
            else cs[0] + Join(Marked(rest, at, Never(), marker))
  {
    var rest := Filter(cs[1..], word);
    if word(cs[0]) {
      assert ([cs[0]] + rest)[1..] == rest;
      JoinCons(cs[0], rest);
      JoinCons(marker, [cs[0]] + rest);
      JoinCons(cs[0], Marked(rest, at, Never(), marker));
    }
  }

  lemma Append3(a: string, b: string, c: string)
    ensures a + b + c == a + (b + c)
  {
  }

  function OptionsLine(options: string): string {
    "options " + options + "\n"
  }

  function WriteOptions(f: string, options: string): string {
    Without(f, HasOptions()) + OptionsLine(options)
  }

  function WriteDnsmasq(f: string, options: string): string {
    if options != ALL_SERVERS then Without(f, HasAllServers())
    else if FirstIndex(Chunks(f), HasAllServers()) < |Chunks(f)| then f
    else f + ALL_SERVERS + "\n"
  }

  // ----- the files ----------------------------------------------------------------

  /** The next chunk of what is left to read. */
  method Fgets(rest: string) returns (line: string, left: string)
    requires rest != ""
    ensures line != "" && line + left == rest && |left| < |rest|
    ensures Chunks(rest) == [line] + Chunks(left)
  {
    var k := Cut(rest, LIMIT);
    FirstChunk(rest);
    SplitAt(rest, k);
    line, left := rest[..k], rest[k..];
  }

  class ConfFiles {
    var resolv: string
    var servers: string
    var dnsmasq: string

    constructor (resolvConf: string, resolvDnsmasqConf: string, dnsmasqConf: string)
      ensures resolv == resolvConf && servers == resolvDnsmasqConf && dnsmasq == dnsmasqConf
    {
      resolv, servers, dnsmasq := resolvConf, resolvDnsmasqConf, dnsmasqConf;
    }

    /** Copying the temporary file back chunk by chunk copies it unchanged. */
    method CopyBack(temp: string) returns (file: string)
      ensures file == temp
    {
      file := "";
      var rest := temp;
      while rest != ""
        invariant file + rest == temp
        decreases |rest|
      {
        var line, left := Fgets(rest);
        file := file + line;
        rest := left;
      }
    }

    /** The loop that sets aside the lines to keep: `found` tells whether one was dropped. */
    method KeepLines(file: string, drop: string -> bool, initially: bool) returns (temp: string, found: bool)
      ensures temp == Without(file, drop)
      ensures !found ==> temp == file
    {
      temp, found := "", initially;
      var rest := file;
      while rest != ""
        invariant temp + Without(rest, drop) == Without(file, drop)
        invariant !found ==> temp + rest == file
        decreases |rest|
      {
        var line, left := Fgets(rest);
        WithoutStep(rest, line, left, drop);
        if !drop(line) {
          Append3(temp, line, Without(left, drop));
          Append3(temp, line, left);
          temp := temp + line;
        } else {
          found := true;
        }
        rest := left;
      }
      WithoutEnd(drop);
    }

    method DeleteServerToResolv()
      modifies this`resolv
      ensures resolv == DeleteServer(old(resolv))
    {
      var temp, found := KeepLines(resolv, IsLocal(), false);
      resolv := CopyBack(temp);
    }

    /** The loop of `write_server_to_resolv`, for any line tests. */
    method MarkFirst(file: string, at: string -> bool, already: string -> bool, marker: string) returns (temp: string)
      ensures temp == MarkedFile(file, at, already, marker)
    {
      temp := "";
      var rest, found := file, false;
      while rest != ""
        invariant temp + (if found then rest else MarkedFile(rest, at, already, marker)) ==
                  MarkedFile(file, at, already, marker)
        decreases |rest|
      {
        var line, left := Fgets(rest);
        MarkedStep(rest, line, left, at, already, marker);
        Append3(temp, line, left);
        Append3(temp, line, MarkedFile(left, at, already, marker));
        if at(line) && !found {
          if !already(line) {
            Append3(temp, marker + line, left);
            Append3(marker, line, left);
            temp := temp + (marker + line);
          } else {
            temp := temp + line;
          }
          found := true;
        } else {
          temp := temp + line;
        }
        rest := left;
      }
    }

    method WriteServerToResolv()
      modifies this`resolv
      ensures resolv == WriteServer(old(resolv))
    {
      var temp := MarkFirst(resolv, IsNameserver(), IsLocal(), LOCAL_LINE);
      resolv := CopyBack(temp);
    }

    /** The copy into resolv.dnsmasq.conf, which is emptied first. */
    method WriteNameserverToResolv()
      modifies this`servers
      ensures servers == CopiedServers(resolv)
    {
      servers := CopyServers(resolv, HasServerWord(), LacksLocal(), LOCAL_LINE);
    }

    /** The loop of `write_nameserver_to_resolv`, for any line tests. */
    method CopyServers(file: string, word: string -> bool, at: string -> bool, marker: string) returns (copy: string)
      ensures copy == Join(Marked(Filter(Chunks(file), word), at, Never(), marker))
    {
      copy := "";
      var rest, found := file, false;
      while rest != ""
        invariant copy + (if found then Join(Filter(Chunks(rest), word))
                          else Join(Marked(Filter(Chunks(rest), word), at, Never(), marker))) ==
                  Join(Marked(Filter(Chunks(file), word), at, Never(), marker))
        decreases |rest|
      {
        var line, left := Fgets(rest);
        CopyStep(Chunks(rest), word, at, marker);
        assert Chunks(rest)[0] == line && Chunks(rest)[1..] == Chunks(left);
        Append3(copy, line, Join(Filter(Chunks(left), word)));
        Append3(copy, line, Join(Marked(Filter(Chunks(left), word), at, Never(), marker)));
        if word(line) {
          if at(line) && !found {
            Append3(copy, marker + line, Join(Filter(Chunks(left), word)));
            Append3(marker, line, Join(Filter(Chunks(left), word)));
            copy := copy + (marker + line);
            found := true;
          } else {
            copy := copy + line;
          }
        }
        rest := left;
      }
    }

    /** `found` starts out uninitialised in the original; the result is the same for
        either value. */
    method WriteOptionsToResolv(options: string, uninitialised: bool)
      modifies this`resolv
      ensures resolv == WriteOptions(old(resolv), options)
    {
      var temp, found := KeepLines(resolv, HasOptions(), uninitialised);
      if found {
        resolv := CopyBack(temp);
      }
      resolv := resolv + ("options " + options + "\n");
    }

    /** The scan of the "all-servers" case, which only looks whether the word is there. */
    method FindLine(file: string, p: string -> bool) returns (present: bool)
      ensures present <==> FirstIndex(Chunks(file), p) < |Chunks(file)|
    {
      var rest := file;
      ghost var seen: seq<string> := [];
      while rest != ""
        invariant Chunks(file) == seen + Chunks(rest)
        invariant forall i :: 0 <= i < |seen| ==> !p(seen[i])
        decreases |rest|
      {
        var line, left := Fgets(rest);
        if p(line) {
          FirstIndexUnique(Chunks(file), p, |seen|);
          return true;
        }
        seen := seen + [line];
        rest := left;
      }
      FirstIndexUnique(Chunks(file), p, |seen|);
      return false;
    }

    /** The original runs both scans in one loop, told apart by `options` in each turn. */
    method WriteOptionsToDnsmasq(options: string)
      modifies this`dnsmasq
      ensures dnsmasq == WriteDnsmasq(old(dnsmasq), options)
    {
      if options == ALL_SERVERS {
        var present := FindLine(dnsmasq, HasAllServers());
        if present {
          return;
        }
        dnsmasq := dnsmasq + options + "\n";
      } else {
        var temp, found := KeepLines(dnsmasq, HasAllServers(), false);
        if found {
          dnsmasq := CopyBack(temp);
        }
      }
    }

    /** One update: the mode is chosen by `type`, and empty settings get defaults. */
    method UpdateExtraConfToResolv(s: Settings, uninitialised: bool)
      modifies this
      ensures Conf(resolv, servers, dnsmasq) == Update(Conf(old(resolv), old(servers), old(dnsmasq)), s)
    {
      var kind := s.kind;
      if kind == "" {
        kind := "order";
      }
      if kind == "rotate" {
        WriteOptionsToResolv(OptionsText(s), uninitialised);
        WriteNameserverToResolv();
        DeleteServerToResolv();
        WriteOptionsToDnsmasq("rotate");
      } else {
        WriteOptionsToResolv(OptionsText(s), uninitialised);
        WriteNameserverToResolv();
        if kind != "order" {
          WriteServerToResolv();
          WriteOptionsToDnsmasq("all-servers");
        } else {
          DeleteServerToResolv();
          WriteOptionsToDnsmasq("strict-order");
        }
      }
    }
  }

  // ----- the mode switch -------------------------------------------------------------

  datatype Settings = Settings(kind: string, timeout: string, attempts: string)
  datatype Conf = Conf(resolv: string, servers: string, dnsmasq: string)

  predicate Rotates(s: Settings) {
    s.kind == "rotate"
  }

  predicate InOrder(s: Settings) {
    s.kind == "order" || s.kind == ""
  }

  function OrDefault(s: string, default: string): string {
    if s == "" then default else s
  }

  /** `snprintf` into 200 characters. */
  function Truncated(s: string): (t: string)
    ensures |t| <= 199
  {
    if |s| <= 199 then s else s[..199]
  }

  function OptionsText(s: Settings): string {
    Truncated("timeout:" + OrDefault(s.timeout, "5") + " attempts:" + OrDefault(s.attempts, "2") +
              (if Rotates(s) then " " + s.kind else ""))
  }

  function Update(c: Conf, s: Settings): Conf {
    var r := WriteOptions(c.resolv, OptionsText(s));
    if Rotates(s) then Conf(DeleteServer(r), CopiedServers(r), WriteDnsmasq(c.dnsmasq, "rotate"))
    else if InOrder(s) then Conf(DeleteServer(r), CopiedServers(r), WriteDnsmasq(c.dnsmasq, "strict-order"))
    else Conf(WriteServer(r), CopiedServers(r), WriteDnsmasq(c.dnsmasq, "all-servers"))
  }
}
