/** The output filters of scripts/watch.js. Each chunk a child process
    writes is split into lines on its own; `quiet` echoes the build
    progress lines of standard output and all of standard error but one
    npm warning, and `wait` echoes the lines holding a marker and settles
    a promise when it sees one. The streams are given as their chunks and
    what is printed is returned, one stream at a time. */
module Watch {
  import opened Strings

  const RunMarker := "> nx run @diplodoc"
  const LeftAsIs := "left as is"
  const BuildTime := "Build time:"
  const WorkspaceWarning := "npm warn config ignoring workspace config"

  /** The marker the script waits for after starting the server. */
  const ServedMarker := "Documentations served"

  /** `String(chunk).split('\n')` */
  function Lines(chunk: string): seq<string> {
    Split(chunk, '\n')
  }

  /** The pieces of a chunk hold no line break and join back into it. */
  lemma LinesJoin(chunk: string)
    ensures Join(Lines(chunk), "\n") == chunk
    ensures forall l :: l in Lines(chunk) ==> '\n' !in l
  {
    JoinSplit(chunk, '\n');
  }

  /** The lines of the chunks, chunk after chunk, each split on its own. */
  function ChunkLines(chunks: seq<string>): seq<string>
    decreases |chunks|
  {
    if chunks == [] then [] else ChunkLines(chunks[..|chunks| - 1]) + Lines(chunks[|chunks| - 1])
  }

  lemma ChunkLinesStep(chunks: seq<string>, i: nat)
    requires i < |chunks|
    ensures ChunkLines(chunks[..i + 1]) == ChunkLines(chunks[..i]) + Lines(chunks[i])
  {
    assert chunks[..i + 1][..i] == chunks[..i];
  }

  // quiet

  /** The first rule: a task line of an `@diplodoc` project, unless it
      reports a file left as is. */
  predicate RunLine(line: string) {
    Contains(line, RunMarker) && !Contains(line, LeftAsIs)
  }

  /** The second rule, `/^Build time:/`. */
  predicate BuildTimeLine(line: string) {
    StartsWith(line, BuildTime)
  }

  /** What `quiet` prints for one standard output line: once per rule it meets. */
  function StdoutEcho(line: string): seq<string> {
    (if RunLine(line) then [line] else []) + (if BuildTimeLine(line) then [line] else [])
  }

  /** What `quiet` prints for one standard error line. */
  function StderrEcho(line: string): seq<string> {
    if Contains(line, WorkspaceWarning) then [] else [line]
  }

  /** A standard output line is printed as itself, twice exactly when it
      meets both rules, and not at all when it meets neither. */
  lemma StdoutEchoCount(line: string)
    ensures forall l :: l in StdoutEcho(line) ==> l == line
    ensures |StdoutEcho(line)| == 2 <==> RunLine(line) && BuildTimeLine(line)
    ensures StdoutEcho(line) == [] <==> !RunLine(line) && !BuildTimeLine(line)
  {
  }

  /** A standard error line is printed, once, exactly when it is not the
      workspace warning. */
  lemma StderrEchoCount(line: string)
    ensures StderrEcho(line) == [line] <==> !Contains(line, WorkspaceWarning)
    ensures StderrEcho(line) == [] <==> Contains(line, WorkspaceWarning)
  {
  }

  /** The standard output lines `quiet` prints, in order. */
  function QuietOut(lines: seq<string>): seq<string>
    decreases |lines|
  {
    if lines == [] then [] else QuietOut(lines[..|lines| - 1]) + StdoutEcho(lines[|lines| - 1])
  }

  /** The standard error lines `quiet` prints, in order. */
  function QuietErr(lines: seq<string>): seq<string>
    decreases |lines|
  {
    if lines == [] then [] else QuietErr(lines[..|lines| - 1]) + StderrEcho(lines[|lines| - 1])
  }

  lemma QuietStep(lines: seq<string>, j: nat)
    requires j < |lines|
    ensures QuietOut(lines[..j + 1]) == QuietOut(lines[..j]) + StdoutEcho(lines[j])
    ensures QuietErr(lines[..j + 1]) == QuietErr(lines[..j]) + StderrEcho(lines[j])
  {
    assert lines[..j + 1][..j] == lines[..j];
  }

  /** The standard output loop of `quiet` over the lines of one chunk. */
  method QuietStdoutLines(lines: seq<string>) returns (printed: seq<string>)
    ensures printed == QuietOut(lines)
  {
    printed := [];
    for j := 0 to |lines|
      invariant printed == QuietOut(lines[..j])
    {
      QuietStep(lines, j);
      var line := lines[j];
      if Contains(line, RunMarker) {
        if !Contains(line, LeftAsIs) {
          printed := printed + [line];
        }
      }
      if StartsWith(line, BuildTime) {
        printed := printed + [line];
      }
    }
    assert lines[..|lines|] == lines;
  }

  /** The standard output loop of `quiet`. */
  method QuietStdout(chunks: seq<string>) returns (printed: seq<string>)
    ensures printed == QuietOut(ChunkLines(chunks))
  {
    printed := [];
    for i := 0 to |chunks|
      invariant printed == QuietOut(ChunkLines(chunks[..i]))
    {
      var lines := Lines(chunks[i]);
      var fromChunk := QuietStdoutLines(lines);
      ChunkLinesStep(chunks, i);
      QuietOutAppend(ChunkLines(chunks[..i]), lines);
      printed := printed + fromChunk;
    }
    assert chunks[..|chunks|] == chunks;
  }

  /** The standard error loop of `quiet` over the lines of one chunk. */
  method QuietStderrLines(lines: seq<string>) returns (printed: seq<string>)
    ensures printed == QuietErr(lines)
  {
    printed := [];
    for j := 0 to |lines|
      invariant printed == QuietErr(lines[..j])
    {
      QuietStep(lines, j);
      var line := lines[j];
      if Contains(line, WorkspaceWarning) {
        continue;
      }
      printed := printed + [line];
    }
    assert lines[..|lines|] == lines;
  }

  /** The standard error loop of `quiet`. */
  method QuietStderr(chunks: seq<string>) returns (printed: seq<string>)
    ensures printed == QuietErr(ChunkLines(chunks))
  {
    printed := [];
    for i := 0 to |chunks|
      invariant printed == QuietErr(ChunkLines(chunks[..i]))
    {
      var lines := Lines(chunks[i]);
      var fromChunk := QuietStderrLines(lines);
      ChunkLinesStep(chunks, i);
      QuietErrAppend(ChunkLines(chunks[..i]), lines);
      printed := printed + fromChunk;
    }
    assert chunks[..|chunks|] == chunks;
  }

  /** `quiet(command)`: what it prints from each stream. */
  method Quiet(stdout: seq<string>, stderr: seq<string>) returns (fromStdout: seq<string>, fromStderr: seq<string>)
    ensures fromStdout == QuietOut(ChunkLines(stdout))
    ensures fromStderr == QuietErr(ChunkLines(stderr))
  {
    fromStdout := QuietStdout(stdout);
    fromStderr := QuietStderr(stderr);
  }

  /** Every printed standard output line is an input line that meets a
      rule, and every input line that meets a rule is printed. */
  lemma {:induction false} QuietOutLines(lines: seq<string>)
    ensures forall l :: l in QuietOut(lines) ==> l in lines && (RunLine(l) || BuildTimeLine(l))
    ensures forall l :: l in lines && (RunLine(l) || BuildTimeLine(l)) ==> l in QuietOut(lines)
    decreases |lines|
  {
    if lines != [] {
      var init, last := lines[..|lines| - 1], lines[|lines| - 1];
      QuietOutLines(init);
      assert lines == init + [last];
      StdoutEchoCount(last);
    }
  }

  /** Every standard error line but the workspace warning is printed, and
      nothing else. */
  lemma {:induction false} QuietErrLines(lines: seq<string>)
    ensures forall l :: l in QuietErr(lines) <==> l in lines && !Contains(l, WorkspaceWarning)
    decreases |lines|
  {
    if lines != [] {
      var init, last := lines[..|lines| - 1], lines[|lines| - 1];
      QuietErrLines(init);
      assert lines == init + [last];
    }
  }

  /** Standard output printing distributes over the lines: what is
      printed for two runs of lines is what is printed for each, in order. */
  lemma {:induction false} QuietOutAppend(a: seq<string>, b: seq<string>)
    ensures QuietOut(a + b) == QuietOut(a) + QuietOut(b)
    decreases |b|
  {
    if b == [] {
      assert a + b == a;
    } else {
      var init := b[..|b| - 1];
      QuietOutAppend(a, init);
      assert (a + b)[..|a + b| - 1] == a + init;
    }
  }

  /** Standard error printing distributes over the lines likewise. */
  lemma {:induction false} QuietErrAppend(a: seq<string>, b: seq<string>)
    ensures QuietErr(a + b) == QuietErr(a) + QuietErr(b)
    decreases |b|
  {
    if b == [] {
      assert a + b == a;
    } else {
      var init := b[..|b| - 1];
      QuietErrAppend(a, init);
      assert (a + b)[..|a + b| - 1] == a + init;
    }
  }

  // wait

  /** A promise that settles at most once: `resolve()` after the first has
      no effect. */
  class Promise {
    var settled: bool

    constructor ()
      ensures !settled
    {
      settled := false;
    }

    /** `resolve()`: settles the promise; resolving a settled one again
        changes nothing. */
    method Resolve()
      modifies this
      ensures settled
    {
      settled := true;
    }
  }

  /** The lines holding `marker`, in order. */
  function Matching(marker: string, lines: seq<string>): seq<string>
    decreases |lines|
  {
    if lines == [] then []
    else Matching(marker, lines[..|lines| - 1]) + (if Contains(lines[|lines| - 1], marker) then [lines[|lines| - 1]] else [])
  }

  /** The matching lines are exactly the input lines holding the marker. */
  lemma {:induction false} MatchingLines(marker: string, lines: seq<string>)
    ensures forall l :: l in Matching(marker, lines) <==> l in lines && Contains(l, marker)
    ensures Matching(marker, lines) == [] <==> forall l :: l in lines ==> !Contains(l, marker)
    decreases |lines|
  {
    if lines != [] {
      var init, last := lines[..|lines| - 1], lines[|lines| - 1];
      MatchingLines(marker, init);
      assert lines == init + [last];
    }
    if Matching(marker, lines) != [] {
      assert Matching(marker, lines)[0] in Matching(marker, lines);
    }
  }

  /** Matching distributes over the lines. */
  lemma {:induction false} MatchingAppend(marker: string, a: seq<string>, b: seq<string>)
    ensures Matching(marker, a + b) == Matching(marker, a) + Matching(marker, b)
    decreases |b|
  {
    if b == [] {
      assert a + b == a;
    } else {
      var init := b[..|b| - 1];
      MatchingAppend(marker, a, init);
      assert (a + b)[..|a + b| - 1] == a + init;
    }
  }

  lemma MatchingStep(marker: string, lines: seq<string>, j: nat)
    requires j < |lines|
    ensures Matching(marker, lines[..j + 1]) ==
      Matching(marker, lines[..j]) + (if Contains(lines[j], marker) then [lines[j]] else [])
  {
    assert lines[..j + 1][..j] == lines[..j];
  }

  /** The loop of `wait` over the lines of one chunk: print each line
      holding the marker and resolve the promise. */
  method WaitLines(marker: string, lines: seq<string>, p: Promise) returns (printed: seq<string>)
    modifies p
    ensures printed == Matching(marker, lines)
    ensures p.settled == (old(p.settled) || printed != [])
  {
    printed := [];
    for j := 0 to |lines|
      invariant printed == Matching(marker, lines[..j])
      invariant p.settled == (old(p.settled) || printed != [])
    {
      MatchingStep(marker, lines, j);
      var line := lines[j];
      if Contains(line, marker) {
        printed := printed + [line];
        p.Resolve();
      }
    }
    assert lines[..|lines|] == lines;
  }

  /** One of the two loops of `wait`, over the chunks of one stream. */
  method WaitOn(marker: string, chunks: seq<string>, p: Promise) returns (printed: seq<string>)
    modifies p
    ensures printed == Matching(marker, ChunkLines(chunks))
    ensures p.settled == (old(p.settled) || printed != [])
  {
    printed := [];
    for i := 0 to |chunks|
      invariant printed == Matching(marker, ChunkLines(chunks[..i]))
      invariant p.settled == (old(p.settled) || printed != [])
    {
      var lines := Lines(chunks[i]);
      var fromChunk := WaitLines(marker, lines, p);
      ChunkLinesStep(chunks, i);
      MatchingAppend(marker, ChunkLines(chunks[..i]), lines);
      printed := printed + fromChunk;
    }
    assert chunks[..|chunks|] == chunks;
  }

  /** `wait(marker, command)`: what each stream prints, and whether the
      returned promise has settled once both streams have ended. */
  method Wait(marker: string, stdout: seq<string>, stderr: seq<string>)
    returns (fromStdout: seq<string>, fromStderr: seq<string>, settled: bool)
    ensures fromStdout == Matching(marker, ChunkLines(stdout))
    ensures fromStderr == Matching(marker, ChunkLines(stderr))
    ensures settled <==> fromStdout != [] || fromStderr != []
  {
    var p := new Promise();
    fromStdout := WaitOn(marker, stdout, p);
    fromStderr := WaitOn(marker, stderr, p);
    settled := p.settled;
  }

  /** The promise settles exactly when some line of either stream holds
      the marker. */
  lemma WaitSettles(marker: string, stdout: seq<string>, stderr: seq<string>)
    ensures (Matching(marker, ChunkLines(stdout)) != [] || Matching(marker, ChunkLines(stderr)) != []) <==>
      exists l :: (l in ChunkLines(stdout) || l in ChunkLines(stderr)) && Contains(l, marker)
  {
    MatchingLines(marker, ChunkLines(stdout));
    MatchingLines(marker, ChunkLines(stderr));
  }
}
