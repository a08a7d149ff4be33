/** Reading a file with `fgets` into a fixed buffer, and writing chunks back. Files are
    NUL-free texts. */
module LineBuffer {
  import opened SeqOps

  /** `fgets` with a buffer of MAXLINE characters keeps at most this many. */
  const MAXLINE: nat := 1024
  const LIMIT: nat := MAXLINE - 1

  /** Length of the next chunk: through the first newline, at most `n` characters. */
  function Cut(s: string, n: nat): (k: nat)
    ensures k <= |s| && k <= n
    ensures s != "" && n > 0 ==> k > 0
  {
    if s == "" || n == 0 then 0 else if s[0] == '\n' then 1 else 1 + Cut(s[1..], n - 1)
  }

  function Chunks(s: string): seq<string> {
    if s == "" then [] else [s[..Cut(s, LIMIT)]] + Chunks(s[Cut(s, LIMIT)..])
  }

  function Join(cs: seq<string>): string {
    if cs == [] then "" else cs[0] + Join(cs[1..])
  }

  /** A chunk that ends by itself: at a newline, or because the buffer is full. */
  predicate Complete(c: string) {
    c != "" && Cut(c, LIMIT) == |c| && (c[|c| - 1] == '\n' || |c| == LIMIT)
  }

  /** What a file is cut into: every chunk but the last is complete. */
  ghost predicate IsCut(cs: seq<string>) {
    (forall i :: 0 <= i < |cs| - 1 ==> Complete(cs[i])) &&
    (cs != [] ==> cs[|cs| - 1] != "" && Cut(cs[|cs| - 1], LIMIT) == |cs[|cs| - 1]|)
  }

  lemma {:induction false} CutExtends(c: string, t: string, n: nat)
    requires c != "" && Cut(c, n) == |c| && (c[|c| - 1] == '\n' || |c| == n)
    ensures Cut(c + t, n) == |c|
  {
    assert (c + t)[0] == c[0];
    if c[0] != '\n' {
      assert (c + t)[1..] == c[1..] + t;
      if |c| > 1 {
        CutExtends(c[1..], t, n - 1);
      } else {
        assert n == 1;
      }
    }
  }

  lemma {:induction false} CutOfPrefix(s: string, n: nat)
    ensures Cut(s[..Cut(s, n)], n) == Cut(s, n)
    ensures 0 < Cut(s, n) < |s| ==> s[Cut(s, n) - 1] == '\n' || Cut(s, n) == n
  {
    if s != "" && n > 0 && s[0] != '\n' {
      CutOfPrefix(s[1..], n - 1);
      var k := Cut(s[1..], n - 1);
      assert s[..k + 1][1..] == s[1..][..k];
      assert k > 0 ==> s[k] == s[1..][k - 1];
    }
  }

  lemma IsCutCons(c: string, rest: seq<string>)
    requires IsCut(rest) && c != "" && Cut(c, LIMIT) == |c| && (rest == [] || Complete(c))
    ensures IsCut([c] + rest)
  {
  }

  /** Cutting loses nothing, and yields a cut list. */
  lemma {:induction false} JoinChunks(s: string)
    ensures Join(Chunks(s)) == s
    ensures IsCut(Chunks(s))
    decreases |s|
  {
    if s != "" {
      var k := Cut(s, LIMIT);
      var rest := Chunks(s[k..]);
      JoinChunks(s[k..]);
      FirstChunk(s);
      SplitAt(s, k);
      JoinCons(s[..k], rest);
      IsCutCons(s[..k], rest);
    }
  }

  lemma FirstChunk(s: string)
    requires s != ""
    ensures var k := Cut(s, LIMIT);
            0 < k && Cut(s[..k], LIMIT) == k && (k < |s| ==> Complete(s[..k]))
    ensures Chunks(s) == [s[..Cut(s, LIMIT)]] + Chunks(s[Cut(s, LIMIT)..])
  {
    CutOfPrefix(s, LIMIT);
    var k := Cut(s, LIMIT);
    var c := s[..k];
    assert |c| == k && c[k - 1] == s[k - 1];
  }

  lemma SplitAt(s: string, k: nat)
    requires k <= |s|
    ensures s[..k] + s[k..] == s
  {
  }

  lemma JoinCons(c: string, rest: seq<string>)
    ensures Join([c] + rest) == c + Join(rest)
  {
  }

  /** Writing a cut list out and reading it again gives back the same chunks. */
  lemma {:induction false} ChunksJoin(cs: seq<string>)
    requires IsCut(cs)
    ensures Chunks(Join(cs)) == cs
    decreases |cs|
  {
    if cs != [] {
      var c, rest := cs[0], cs[1..];
      assert forall i :: 0 <= i < |rest| ==> rest[i] == cs[i + 1];
      ChunksJoin(rest);
      if rest == [] {
        assert Join(cs) == c;
        assert c[..|c|] == c && c[|c|..] == "";
      } else {
        assert Complete(cs[0]);
        CutExtends(c, Join(rest), LIMIT);
        assert (c + Join(rest))[..|c|] == c && (c + Join(rest))[|c|..] == Join(rest);
      }
    }
  }

  /** A chunk is not empty, ends at its first newline, has at most 1023 characters, and is
      shorter without a newline only at the end of the file. */
  lemma ChunkShape(f: string, i: nat)
    requires i < |Chunks(f)|
    ensures var c := Chunks(f)[i];
            0 < |c| <= 1023 && (forall k :: 0 <= k < |c| - 1 ==> c[k] != '\n') &&
            (i < |Chunks(f)| - 1 ==> c[|c| - 1] == '\n' || |c| == 1023)
  {
    JoinChunks(f);
    CutMeansLine(Chunks(f)[i], LIMIT);
  }

  lemma IsCutTail(cs: seq<string>)
    requires IsCut(cs) && cs != []
    ensures IsCut(cs[1..]) && cs[0] != "" && Cut(cs[0], LIMIT) == |cs[0]|
    ensures cs[1..] != [] ==> Complete(cs[0])
  {
  }

  /** Dropping chunks keeps a cut list cut: no kept chunk merges with its new neighbour. */
  lemma {:induction false} FilterIsCut(cs: seq<string>, keep: string -> bool)
    requires IsCut(cs)
    ensures IsCut(Filter(cs, keep))
    decreases |cs|
  {
    if cs != [] {
      IsCutTail(cs);
      FilterIsCut(cs[1..], keep);
      if keep(cs[0]) {
        if cs[1..] == [] {
          assert Filter(cs[1..], keep) == [];
        }
        IsCutCons(cs[0], Filter(cs[1..], keep));
      }
    }
  }

  ghost predicate AllComplete(cs: seq<string>) {
    forall i :: 0 <= i < |cs| ==> Complete(cs[i])
  }

  lemma {:induction false} FilterComplete(cs: seq<string>, keep: string -> bool)
    requires AllComplete(cs)
    ensures AllComplete(Filter(cs, keep))
  {
    var fs := Filter(cs, keep);
    forall i | 0 <= i < |fs|
      ensures Complete(fs[i])
    {
      assert fs[i] in cs;
    }
  }

  /** A file that ends in a newline, or is empty, is cut into complete chunks only. */
  lemma {:induction false} NewlineTerminated(s: string)
    requires s == "" || s[|s| - 1] == '\n'
    ensures AllComplete(Chunks(s))
    decreases |s|
  {
    if s != "" {
      var k := Cut(s, LIMIT);
      CutOfPrefix(s, LIMIT);
      NewlineTerminated(s[k..]);
      assert Chunks(s) == [s[..k]] + Chunks(s[k..]);
      assert Complete(s[..k]);
    }
  }

  /** One line that fits the buffer is one complete chunk. */
  lemma {:induction false} LineCut(s: string, n: nat)
    requires s != "" && |s| <= n && s[|s| - 1] == '\n'
    requires forall i :: 0 <= i < |s| - 1 ==> s[i] != '\n'
    ensures Cut(s, n) == |s|
  {
    if |s| > 1 {
      LineCut(s[1..], n - 1);
    }
  }

  // ----- writing behind a file -----------------------------------------------

  ghost predicate LastComplete(cs: seq<string>) {
    cs == [] || Complete(cs[|cs| - 1])
  }

  /** Of a cut list only the last chunk can be incomplete. */
  lemma LastCompleteIff(cs: seq<string>)
    requires IsCut(cs)
    ensures LastComplete(cs) <==> AllComplete(cs)
  {
  }

  lemma IsCutAppend(a: seq<string>, b: seq<string>)
    requires AllComplete(a) && IsCut(b)
    ensures IsCut(a + b)
  {
    var cs := a + b;
    forall i | 0 <= i < |cs| - 1
      ensures Complete(cs[i])
    {
      assert cs[i] == if i < |a| then a[i] else b[i - |a|];
    }
    if cs != [] {
      assert cs[|cs| - 1] == if b != [] then b[|b| - 1] else a[|a| - 1];
    }
  }

  /** Behind complete chunks a text is cut as if it stood alone. */
  lemma AppendChunks(cs: seq<string>, t: string)
    requires AllComplete(cs)
    ensures Chunks(Join(cs) + t) == cs + Chunks(t)
  {
    JoinChunks(t);
    IsCutAppend(cs, Chunks(t));
    JoinAppend(cs, Chunks(t));
    ChunksJoin(cs + Chunks(t));
  }

  lemma {:induction false} LongCut(s: string, n: nat)
    requires n < |s| && forall i :: 0 <= i < n ==> s[i] != '\n'
    ensures Cut(s, n) == n
  {
    if n > 0 {
      LongCut(s[1..], n - 1);
    }
  }

  lemma {:induction false} CutMeansLine(s: string, n: nat)
    requires Cut(s, n) == |s|
    ensures forall i :: 0 <= i < |s| - 1 ==> s[i] != '\n'
  {
    if |s| > 1 {
      CutMeansLine(s[1..], n - 1);
      assert forall i :: 0 < i < |s| ==> s[i] == s[1..][i - 1];
    }
  }

  /** One line of text that is shorter than the buffer. */
  ghost predicate ShortLine(t: string) {
    t != "" && |t| < LIMIT && t[|t| - 1] == '\n' && forall i :: 0 <= i < |t| - 1 ==> t[i] != '\n'
  }

  /** A chunk that ends neither at a newline nor for lack of room. */
  ghost predicate Dangling(c: string) {
    c != "" && |c| < LIMIT && forall i :: 0 <= i < |c| ==> c[i] != '\n'
  }

  lemma IncompleteDangles(c: string)
    requires c != "" && Cut(c, LIMIT) == |c| && !Complete(c)
    ensures Dangling(c)
  {
    CutMeansLine(c, LIMIT);
  }

  lemma PrefixOfBoth(c: string, t: string, m: nat)
    requires |c| <= m <= |c| + |t|
    ensures (c + t)[..m] == c + t[..m - |c|] && (c + t)[m..] == t[m - |c|..]
  {
  }

  lemma GluedIsOneLine(c: string, t: string)
    requires Dangling(c) && ShortLine(t)
    ensures var s := c + t;
            s[|s| - 1] == '\n' && forall i :: 0 <= i < |s| - 1 ==> s[i] != '\n'
  {
  }

  /** A short line behind a dangling chunk is glued to it; what does not fit the buffer
      is cut off. */
  lemma GluedChunks(c: string, t: string)
    requires Dangling(c) && ShortLine(t)
    ensures Chunks(c + t) ==
            if |c| + |t| <= LIMIT then [c + t] else [c + t[..LIMIT - |c|]] + Chunks(t[LIMIT - |c|..])
  {
    var s := c + t;
    FirstChunk(s);
    GluedIsOneLine(c, t);
    if |s| <= LIMIT {
      LineCut(s, LIMIT);
      assert s[..|s|] == s && s[|s|..] == "";
    } else {
      LongCut(s, LIMIT);
      PrefixOfBoth(c, t, LIMIT);
    }
  }

  lemma {:induction false} ChunksAreParts(s: string, c: string)
    requires c in Chunks(s)
    ensures |c| <= |s| && forall x :: x in c ==> x in s
    decreases |s|
  {
    FirstChunk(s);
    var k := Cut(s, LIMIT);
    if c != s[..k] {
      ChunksAreParts(s[k..], c);
    }
  }

  /** The glued line is not a chunk of its own. */
  lemma GluedNotAlone(c: string, t: string)
    requires Dangling(c) && ShortLine(t)
    ensures t !in Chunks(c + t)
  {
    GluedChunks(c, t);
    if |c| + |t| > LIMIT && t in Chunks(t[LIMIT - |c|..]) {
      ChunksAreParts(t[LIMIT - |c|..], t);
    }
  }

  /** The chunks of a cut file with an incomplete end, and a short line behind it. */
  lemma AppendGlued(f: string, t: string)
    requires !LastComplete(Chunks(f)) && ShortLine(t)
    ensures var cs := Chunks(f);
            cs != [] && Dangling(cs[|cs| - 1]) && AllComplete(cs[..|cs| - 1]) &&
            Chunks(f + t) == cs[..|cs| - 1] + Chunks(cs[|cs| - 1] + t)
  {
    var cs := Chunks(f);
    JoinChunks(f);
    var init, c := cs[..|cs| - 1], cs[|cs| - 1];
    IncompleteDangles(c);
    assert cs == init + [c];
    JoinAppend(init, [c]);
    JoinCons(c, []);
    assert [c] + [] == [c] && c + "" == c;
    AppendChunks(init, c + t);
    AssociateJoin(Join(init), c, t);
  }

  lemma AssociateJoin(a: string, b: string, c: string)
    ensures a + b + c == a + (b + c)
  {
  }

  // ----- line tests ---------------------------------------------------------

  /** `strncmp(line, word, |word|) == 0`. */
  predicate StartsWith(line: string, word: string) {
    |word| <= |line| && line[..|word|] == word
  }

  /** `strstr(line, word) != NULL`. */
  predicate HasWord(line: string, word: string) {
    StartsWith(line, word) || (line != "" && HasWord(line[1..], word))
  }

  lemma {:induction false} HasWordInside(a: string, word: string, b: string)
    ensures HasWord(a + word + b, word)
    decreases |a|
  {
    var line := a + word + b;
    if a == "" {
      assert line[..|word|] == word;
    } else {
      HasWordInside(a[1..], word, b);
      assert line[1..] == a[1..] + word + b;
    }
  }

  lemma {:induction false} HasWordSplits(line: string, word: string) returns (a: string, b: string)
    requires HasWord(line, word)
    ensures line == a + word + b
    decreases |line|
  {
    if StartsWith(line, word) {
      a, b := "", line[|word|..];
    } else {
      a, b := HasWordSplits(line[1..], word);
      a := [line[0]] + a;
    }
  }

  /** The word stands somewhere in the line. */
  lemma HasWordMeans(line: string, word: string)
    ensures HasWord(line, word) <==> exists a: string, b: string :: line == a + word + b
  {
    if HasWord(line, word) {
      var a, b := HasWordSplits(line, word);
    }
    if a: string, b: string :| line == a + word + b {
      HasWordInside(a, word, b);
    }
  }

  lemma NoWordWithout(line: string, word: string)
    requires word != "" && word[0] !in line
    ensures !HasWord(line, word)
  {
  }

  /** A beginning of the word behind a line without it does not complete it, if the
      word's first letter does not occur in it again. */
  lemma {:induction false} NoWordAcross(line: string, part: string, word: string)
    requires !HasWord(line, word) && |part| < |word| && word[..|part|] == part
    requires forall i :: 0 < i < |word| ==> word[i] != word[0]
    ensures !HasWord(line + part, word)
  {
    var both := line + part;
    if line == "" {
      assert both == part;
      if part != "" {
        assert word[0] !in part[1..] by {
          assert forall i :: 0 <= i < |part| ==> part[i] == word[i];
        }
        NoWordWithout(part[1..], word);
      }
    } else {
      NoWordAcross(line[1..], part, word);
      assert both[1..] == line[1..] + part;
      if StartsWith(both, word) {
        NotAtStart(line, part, word);
      }
    }
  }

  lemma NotAtStart(line: string, part: string, word: string)
    requires line != "" && !HasWord(line, word) && |part| < |word| && word[..|part|] == part
    requires forall i :: 0 < i < |word| ==> word[i] != word[0]
    ensures !StartsWith(line + part, word)
  {
    var both := line + part;
    if |word| <= |line| {
      assert line[..|word|] == both[..|word|];
    } else if |word| <= |both| {
      assert both[|line|] == part[0] && word[..|part|][0] == word[0];
      assert both[..|word|][|line|] != word[|line|];
    }
  }

  // ----- filters ---------------------------------------------------------------

  lemma {:induction false} FilterAppend(a: seq<string>, b: seq<string>, p: string -> bool)
    ensures Filter(a + b, p) == Filter(a, p) + Filter(b, p)
    decreases |a|
  {
    if a == [] {
      assert a + b == b;
    } else {
      assert (a + b)[1..] == a[1..] + b;
      FilterAppend(a[1..], b, p);
    }
  }

  lemma {:induction false} FilterAll(cs: seq<string>, p: string -> bool)
    requires forall c :: c in cs ==> p(c)
    ensures Filter(cs, p) == cs
    decreases |cs|
  {
    if cs != [] {
      FilterAll(cs[1..], p);
    }
  }

  lemma {:induction false} FilterNone(cs: seq<string>, p: string -> bool)
    requires forall c :: c in cs ==> !p(c)
    ensures Filter(cs, p) == []
    decreases |cs|
  {
    if cs != [] {
      FilterNone(cs[1..], p);
    }
  }

  lemma {:induction false} JoinAppend(a: seq<string>, b: seq<string>)
    ensures Join(a + b) == Join(a) + Join(b)
    decreases |a|
  {
    if a == [] {
      assert a + b == b;
    } else {
      assert (a + b)[1..] == a[1..] + b;
      JoinAppend(a[1..], b);
    }
  }
}
