/**
 The word-counting engine: the job queue, one worker iteration, the chunk
 reading loop, the per-chunk merge into the shared word counts and the
 enqueueing of the files.

 Workers run one at a time here: a worker iteration is one atomic step over
 the shared state, and the pool is modelled by running workers one after
 the other.
 */
module Engine {
  import opened Tokenizer
  import opened Chunking

  datatype Option<T> = None | Some(value: T)

  /** The two kinds of job. */
  datatype JobType = FileRead | WordProcess

  /** A queued job. Both payloads may be null. */
  datatype Job = Job(kind: JobType, fileName: Option<string>, content: Option<string>)

  function FileJob(fileName: string): Job {
    Job(FileRead, Some(fileName), None)
  }

  function WordJob(content: string): Job {
    Job(WordProcess, None, Some(content))
  }

  /** The WordProcess jobs for the given chunk texts, in order. */
  function WordJobs(chunks: seq<string>): seq<Job> {
    if chunks == [] then [] else [WordJob(chunks[0])] + WordJobs(chunks[1..])
  }

  /** What successive reads of a file return: non-empty blocks, since a read
      of no characters marks the end of the file. */
  type Blocks = b: seq<string> | forall i :: 0 <= i < |b| ==> b[i] != [] witness []

  /** A file: the blocks its reads return, and whether the read after the
      last block throws instead of reporting the end of the file. */
  datatype FileData = FileData(blocks: Blocks, readError: bool)

  /** The files that exist, by name. */
  type FileSystem = map<string, FileData>

  /** The tokens a file contributes: those of the chunks its read loop emits. */
  function FileTokens(f: FileData): seq<string> {
    TokensOfAll(FileChunks("", f.blocks, f.readError))
  }

  /** The tokens that handling `job` will add to the shared counts. */
  function JobTokens(job: Job, fs: FileSystem): seq<string> {
    match job.kind
    case FileRead =>
      if job.fileName.Some? && job.fileName.value in fs then FileTokens(fs[job.fileName.value]) else []
    case WordProcess =>
      if job.content.Some? then Tokens(job.content.value) else []
  }

  /** The tokens still to be counted for every job of a queue. */
  function OwedTokens(queue: seq<Job>, fs: FileSystem): seq<string> {
    if queue == [] then [] else JobTokens(queue[0], fs) + OwedTokens(queue[1..], fs)
  }

  /** The number of FileRead jobs in a queue. */
  function PendingReads(queue: seq<Job>): nat {
    if queue == [] then 0 else (if queue[0].kind == FileRead then 1 else 0) + PendingReads(queue[1..])
  }

  /** Whether handling `job` reports an error: a missing payload, or a file
      whose reading fails. */
  predicate JobFails(job: Job, fs: FileSystem) {
    match job.kind
    case FileRead =>
      job.fileName.None? || (job.fileName.value in fs && fs[job.fileName.value].readError)
    case WordProcess =>
      job.content.None?
  }

  /** The shared state of a word counter. */
  datatype State = State(
    wordCount: map<string, nat>,
    jobQueue: seq<Job>,
    totalFiles: int,
    filesProcessed: int,
    errorOccured: bool)

  /** How a worker iteration ends: the worker goes on, leaves its loop, or
      its task faults because the file of a FileRead job cannot be opened. */
  datatype StepOutcome = Continue | Exit | Fault

  /** The exit test of a worker: nothing to dequeue and every file accounted for. */
  predicate WorkerExits(s: State) {
    s.jobQueue == [] && s.filesProcessed >= s.totalFiles
  }

  /** One iteration of a worker's loop over the shared state. */
  function Step(s: State, fs: FileSystem): (r: (StepOutcome, State))
    ensures r.0 == Exit <==> WorkerExits(s)
    ensures s.jobQueue == [] ==> r.1 == s
    ensures r.0 == Fault <==>
      s.jobQueue != [] && s.jobQueue[0].kind == FileRead &&
      s.jobQueue[0].fileName.Some? && s.jobQueue[0].fileName.value !in fs
    ensures r.1.totalFiles == s.totalFiles
    ensures r.1.filesProcessed ==
      s.filesProcessed + (if s.jobQueue != [] && s.jobQueue[0].kind == FileRead && r.0 != Fault then 1 else 0)
    ensures s.jobQueue != [] ==> |r.1.jobQueue| >= |s.jobQueue| - 1 && r.1.jobQueue[..|s.jobQueue| - 1] == s.jobQueue[1..]
    ensures r.1.errorOccured == (s.errorOccured || (s.jobQueue != [] && JobFails(s.jobQueue[0], fs)))
    ensures s.jobQueue == [] || s.jobQueue[0].kind == FileRead || s.jobQueue[0].content.None? ==>
      r.1.wordCount == s.wordCount
  {
    if s.jobQueue == [] then
      (if s.filesProcessed >= s.totalFiles then Exit else Continue, s)
    else
      var job := s.jobQueue[0];
      var s1 := s.(jobQueue := s.jobQueue[1..]);
      match job.kind
      case FileRead =>
        if job.fileName.None? then
          (Continue, s1.(errorOccured := true, filesProcessed := s.filesProcessed + 1))
        else if job.fileName.value !in fs then
          (Fault, s1)
        else
          var f := fs[job.fileName.value];
          (Continue, s1.(jobQueue := s1.jobQueue + WordJobs(FileChunks("", f.blocks, f.readError)),
                         errorOccured := s.errorOccured || f.readError,
                         filesProcessed := s.filesProcessed + 1))
      case WordProcess =>
        if job.content.None? then
          (Continue, s1.(errorOccured := true))
        else
          (Continue, s1.(wordCount := AddCounts(s.wordCount, Tokens(job.content.value))))
  }

  /** The FileRead jobs enqueued for the names that exist, in order. */
  function ReadJobs(fileNames: seq<string>, fs: FileSystem): (r: seq<Job>)
    ensures |r| <= |fileNames|
    ensures forall i :: 0 <= i < |r| ==>
      r[i].kind == FileRead && r[i].fileName.Some? && r[i].fileName.value in fs
  {
    if fileNames == [] then []
    else
      var last := fileNames[|fileNames| - 1];
      ReadJobs(fileNames[..|fileNames| - 1], fs) + (if last in fs then [FileJob(last)] else [])
  }

  predicate AnyMissing(fileNames: seq<string>, fs: FileSystem) {
    exists i :: 0 <= i < |fileNames| && fileNames[i] !in fs
  }

  /** The tokens of the named files that exist, file after file. */
  function FilesTokens(fileNames: seq<string>, fs: FileSystem): seq<string> {
    if fileNames == [] then []
    else
      var last := fileNames[|fileNames| - 1];
      FilesTokens(fileNames[..|fileNames| - 1], fs) + (if last in fs then FileTokens(fs[last]) else [])
  }

  /** The state in which a worker pool can run to completion one worker at a
      time: every file not yet processed has its FileRead job in the queue,
      and every FileRead job names a file that can be opened. */
  predicate DrainReady(s: State, fs: FileSystem) {
    && s.filesProcessed + PendingReads(s.jobQueue) == s.totalFiles
    && forall i :: 0 <= i < |s.jobQueue| ==> Openable(s.jobQueue[i], fs)
  }

  /** A job that is not a FileRead of a file that does not exist. */
  predicate Openable(job: Job, fs: FileSystem) {
    job.kind == FileRead && job.fileName.Some? ==> job.fileName.value in fs
  }

  /** Some job of the queue reports an error when handled. */
  predicate AnyFails(queue: seq<Job>, fs: FileSystem) {
    exists i :: 0 <= i < |queue| && JobFails(queue[i], fs)
  }

  // ---------------------------------------------------------------------
  // Lemmas about the queue

  lemma {:induction false} WordJobsAppend(a: seq<string>, b: seq<string>)
    ensures WordJobs(a + b) == WordJobs(a) + WordJobs(b)
  {
    if a == [] {
      assert a + b == b;
    } else {
      assert (a + b)[1..] == a[1..] + b;
      WordJobsAppend(a[1..], b);
      AppendAssoc([WordJob(a[0])], WordJobs(a[1..]), WordJobs(b));
    }
  }

  lemma {:induction false} OwedTokensAppend(a: seq<Job>, b: seq<Job>, fs: FileSystem)
    ensures OwedTokens(a + b, fs) == OwedTokens(a, fs) + OwedTokens(b, fs)
  {
    if a == [] {
      assert a + b == b;
    } else {
      var head, x, y := JobTokens(a[0], fs), OwedTokens(a[1..], fs), OwedTokens(b, fs);
      assert (a + b)[0] == a[0] && (a + b)[1..] == a[1..] + b;
      assert OwedTokens(a + b, fs) == head + OwedTokens(a[1..] + b, fs);
      OwedTokensAppend(a[1..], b, fs);
      AppendAssoc(head, x, y);
    }
  }

  lemma {:induction false} PendingReadsAppend(a: seq<Job>, b: seq<Job>)
    ensures PendingReads(a + b) == PendingReads(a) + PendingReads(b)
  {
    if a == [] {
      assert a + b == b;
    } else {
      assert (a + b)[1..] == a[1..] + b;
      PendingReadsAppend(a[1..], b);
    }
  }

  /** One read of the chunk loop enqueues the job of the first chunk ahead
      of those of the remaining blocks. */
  lemma ReadStep(carry: string, blocks: seq<string>, i: nat, readError: bool)
    requires i < |blocks|
    ensures var cut := CutWord(carry + blocks[i]);
      WordJobs(FileChunks(carry, blocks[i..], readError))
      == [WordJob(cut.chunk)] + WordJobs(FileChunks(cut.trailing, blocks[i + 1..], readError))
  {
    var cut := CutWord(carry + blocks[i]);
    var later := FileChunks(cut.trailing, blocks[i + 1..], readError);
    assert blocks[i..][1..] == blocks[i + 1..];
    assert FileChunks(carry, blocks[i..], readError) == [cut.chunk] + later;
    WordJobsAppend([cut.chunk], later);
  }

  /** The read after the last block: the final carry is enqueued, unless
      that read fails. */
  lemma LastRead(carry: string, blocks: seq<string>, readError: bool)
    ensures WordJobs(FileChunks(carry, blocks[|blocks|..], readError))
            == if readError then [] else [WordJob(carry)]
  {
    assert blocks[|blocks|..] == [];
    assert WordJobs([carry]) == [WordJob(carry)] + WordJobs([]);
  }

  /** Chunk jobs owe exactly the tokens of their chunks and hold no FileRead job. */
  lemma {:induction false} WordJobsOwe(chunks: seq<string>, fs: FileSystem)
    ensures OwedTokens(WordJobs(chunks), fs) == TokensOfAll(chunks)
    ensures PendingReads(WordJobs(chunks)) == 0
    ensures forall i :: 0 <= i < |WordJobs(chunks)| ==> WordJobs(chunks)[i].kind == WordProcess
    ensures !AnyFails(WordJobs(chunks), fs)
  {
    if chunks != [] {
      WordJobsOwe(chunks[1..], fs);
      var rest := WordJobs(chunks[1..]);
      assert WordJobs(chunks) == [WordJob(chunks[0])] + rest;
      assert ([WordJob(chunks[0])] + rest)[1..] == rest;
      forall i | 0 <= i < |WordJobs(chunks)|
        ensures WordJobs(chunks)[i].kind == WordProcess
        ensures !JobFails(WordJobs(chunks)[i], fs)
      {
        if i > 0 {
          assert WordJobs(chunks)[i] == rest[i - 1];
        }
      }
    }
  }

  /** A file read to its end contributes exactly the tokens of its text. */
  lemma FileTokensOfCompleteRead(f: FileData)
    requires !f.readError
    ensures FileTokens(f) == Tokens(Flatten(f.blocks))
  {
    ChunkingPreservesTokens(f.blocks);
  }

  // ---------------------------------------------------------------------
  // Lemmas about a worker iteration

  /** A worker iteration that does not fault moves tokens from the queue to
      the shared counts and loses none: for every word, the count plus what
      the queue still owes stays the same. */
  lemma StepConservesCounts(s: State, fs: FileSystem)
    requires Step(s, fs).0 != Fault
    ensures forall w :: CountOf(Step(s, fs).1.wordCount, w) + Occurrences(OwedTokens(Step(s, fs).1.jobQueue, fs), w)
                     == CountOf(s.wordCount, w) + Occurrences(OwedTokens(s.jobQueue, fs), w)
  {
    if s.jobQueue != [] {
      var job, rest := s.jobQueue[0], s.jobQueue[1..];
      var s' := Step(s, fs).1;
      assert OwedTokens(s.jobQueue, fs) == JobTokens(job, fs) + OwedTokens(rest, fs);
      if job.kind == FileRead && job.fileName.Some? {
        var f := fs[job.fileName.value];
        var chunks := FileChunks("", f.blocks, f.readError);
        assert s'.jobQueue == rest + WordJobs(chunks);
        OwedTokensAppend(rest, WordJobs(chunks), fs);
        WordJobsOwe(chunks, fs);
        forall w
          ensures Occurrences(OwedTokens(s.jobQueue, fs), w)
               == Occurrences(JobTokens(job, fs), w) + Occurrences(OwedTokens(rest, fs), w)
          ensures Occurrences(OwedTokens(s'.jobQueue, fs), w)
               == Occurrences(OwedTokens(rest, fs), w) + Occurrences(TokensOfAll(chunks), w)
        {
          OccurrencesAppend(JobTokens(job, fs), OwedTokens(rest, fs), w);
          OccurrencesAppend(OwedTokens(rest, fs), TokensOfAll(chunks), w);
        }
      } else {
        assert s'.jobQueue == rest;
        forall w
          ensures Occurrences(OwedTokens(s.jobQueue, fs), w)
               == Occurrences(JobTokens(job, fs), w) + Occurrences(OwedTokens(rest, fs), w)
        {
          OccurrencesAppend(JobTokens(job, fs), OwedTokens(rest, fs), w);
        }
      }
    }
  }

  /** A worker iteration that does not fault moves words from the queue to
      the keys of the shared counts and loses none: the keys plus the words
      the queue still owes stay the same. */
  lemma StepConservesKeys(s: State, fs: FileSystem)
    requires Step(s, fs).0 != Fault
    ensures Step(s, fs).1.wordCount.Keys + Words(OwedTokens(Step(s, fs).1.jobQueue, fs))
            == s.wordCount.Keys + Words(OwedTokens(s.jobQueue, fs))
  {
    if s.jobQueue != [] {
      var job, rest := s.jobQueue[0], s.jobQueue[1..];
      var s' := Step(s, fs).1;
      assert OwedTokens(s.jobQueue, fs) == JobTokens(job, fs) + OwedTokens(rest, fs);
      WordsAppend(JobTokens(job, fs), OwedTokens(rest, fs));
      if job.kind == FileRead && job.fileName.Some? {
        var chunks := FileChunks("", fs[job.fileName.value].blocks, fs[job.fileName.value].readError);
        assert s'.jobQueue == rest + WordJobs(chunks);
        ChunkJobsOweWords(rest, chunks, fs);
      } else {
        assert s'.jobQueue == rest;
      }
    }
  }

  /** Appending a file's chunk jobs adds the words of its chunks to what the
      queue owes. */
  lemma ChunkJobsOweWords(rest: seq<Job>, chunks: seq<string>, fs: FileSystem)
    ensures Words(OwedTokens(rest + WordJobs(chunks), fs)) == Words(OwedTokens(rest, fs)) + Words(TokensOfAll(chunks))
  {
    OwedTokensAppend(rest, WordJobs(chunks), fs);
    WordJobsOwe(chunks, fs);
    WordsAppend(OwedTokens(rest, fs), TokensOfAll(chunks));
  }

  /** From a drain-ready state a worker iteration never faults, keeps the
      state drain-ready, handles at least one job, and exits only once the
      queue is empty and every file has been processed. */
  lemma StepKeepsDrainReady(s: State, fs: FileSystem)
    requires DrainReady(s, fs)
    ensures Step(s, fs).0 != Fault
    ensures DrainReady(Step(s, fs).1, fs)
    ensures Step(s, fs).0 == Exit ==> s.jobQueue == [] && s.filesProcessed == s.totalFiles
    ensures Step(s, fs).0 == Continue ==>
      var s' := Step(s, fs).1;
      PendingReads(s'.jobQueue) < PendingReads(s.jobQueue) ||
      (PendingReads(s'.jobQueue) == PendingReads(s.jobQueue) && |s'.jobQueue| < |s.jobQueue|)
    ensures (Step(s, fs).1.errorOccured || AnyFails(Step(s, fs).1.jobQueue, fs)) ==
            (s.errorOccured || AnyFails(s.jobQueue, fs))
  {
    if s.jobQueue != [] {
      var job, rest := s.jobQueue[0], s.jobQueue[1..];
      var s' := Step(s, fs).1;
      QueueHead(s.jobQueue, fs);
      if job.kind == FileRead && job.fileName.Some? {
        var f := fs[job.fileName.value];
        var chunks := FileChunks("", f.blocks, f.readError);
        assert s'.jobQueue == rest + WordJobs(chunks);
        ChunkJobsKeepQueue(rest, chunks, fs);
      } else {
        assert s'.jobQueue == rest;
      }
    }
  }

  /** A queue seen as its first job and the rest. */
  lemma QueueHead(queue: seq<Job>, fs: FileSystem)
    requires queue != []
    ensures PendingReads(queue) == (if queue[0].kind == FileRead then 1 else 0) + PendingReads(queue[1..])
    ensures AnyFails(queue, fs) == (JobFails(queue[0], fs) || AnyFails(queue[1..], fs))
    ensures (forall i :: 0 <= i < |queue| ==> Openable(queue[i], fs)) ==
            (Openable(queue[0], fs) && forall i :: 0 <= i < |queue[1..]| ==> Openable(queue[1..][i], fs))
  {
    assert queue == [queue[0]] + queue[1..];
    AnyFailsAppend([queue[0]], queue[1..], fs);
    assert AnyFails([queue[0]], fs) == JobFails(queue[0], fs) by {
      assert [queue[0]][0] == queue[0];
    }
    if Openable(queue[0], fs) && forall i :: 0 <= i < |queue[1..]| ==> Openable(queue[1..][i], fs) {
      forall i | 0 <= i < |queue| ensures Openable(queue[i], fs) {
        if i > 0 {
          assert queue[i] == queue[1..][i - 1];
        }
      }
    }
  }

  /** Appending the jobs of a file's chunks adds no FileRead job, no job
      that fails and no job that cannot be opened. */
  lemma ChunkJobsKeepQueue(rest: seq<Job>, chunks: seq<string>, fs: FileSystem)
    ensures PendingReads(rest + WordJobs(chunks)) == PendingReads(rest)
    ensures AnyFails(rest + WordJobs(chunks), fs) == AnyFails(rest, fs)
    ensures (forall i :: 0 <= i < |rest| ==> Openable(rest[i], fs)) ==>
            forall i :: 0 <= i < |rest + WordJobs(chunks)| ==> Openable((rest + WordJobs(chunks))[i], fs)
  {
    var q := rest + WordJobs(chunks);
    PendingReadsAppend(rest, WordJobs(chunks));
    WordJobsOwe(chunks, fs);
    AnyFailsAppend(rest, WordJobs(chunks), fs);
    if forall i :: 0 <= i < |rest| ==> Openable(rest[i], fs) {
      forall i | 0 <= i < |q| ensures Openable(q[i], fs) {
        if i >= |rest| {
          assert q[i] == WordJobs(chunks)[i - |rest|];
        } else {
          assert q[i] == rest[i];
        }
      }
    }
  }

  lemma AnyFailsAppend(a: seq<Job>, b: seq<Job>, fs: FileSystem)
    ensures AnyFails(a + b, fs) <==> AnyFails(a, fs) || AnyFails(b, fs)
  {
    if AnyFails(a + b, fs) {
      var i :| 0 <= i < |a + b| && JobFails((a + b)[i], fs);
      if i < |a| {
        assert (a + b)[i] == a[i];
      } else {
        assert (a + b)[i] == b[i - |a|];
      }
    }
    if AnyFails(a, fs) {
      var i :| 0 <= i < |a| && JobFails(a[i], fs);
      assert (a + b)[i] == a[i];
    }
    if AnyFails(b, fs) {
      var i :| 0 <= i < |b| && JobFails(b[i], fs);
      assert (a + b)[|a| + i] == b[i];
    }
  }

  // ---------------------------------------------------------------------
  // Lemmas about enqueueing the files

  /** With every file present, one FileRead job is enqueued per name. */
  lemma {:induction false} ReadJobsCount(fileNames: seq<string>, fs: FileSystem)
    requires !AnyMissing(fileNames, fs)
    ensures PendingReads(ReadJobs(fileNames, fs)) == |ReadJobs(fileNames, fs)| == |fileNames|
  {
    if fileNames != [] {
      var init, last := fileNames[..|fileNames| - 1], fileNames[|fileNames| - 1];
      assert !AnyMissing(init, fs) by {
        forall i | 0 <= i < |init| ensures init[i] in fs {
          assert init[i] == fileNames[i];
        }
      }
      ReadJobsCount(init, fs);
      PendingReadsAppend(ReadJobs(init, fs), [FileJob(last)]);
    }
  }

  /** The enqueued FileRead jobs owe the tokens of the files that exist. */
  lemma {:induction false} ReadJobsOwe(fileNames: seq<string>, fs: FileSystem)
    ensures OwedTokens(ReadJobs(fileNames, fs), fs) == FilesTokens(fileNames, fs)
  {
    if fileNames != [] {
      var init, last := fileNames[..|fileNames| - 1], fileNames[|fileNames| - 1];
      ReadJobsOwe(init, fs);
      var jobs := ReadJobs(init, fs);
      if last in fs {
        assert ReadJobs(fileNames, fs) == jobs + [FileJob(last)];
        assert FilesTokens(fileNames, fs) == FilesTokens(init, fs) + FileTokens(fs[last]);
        OwedTokensAppend(jobs, [FileJob(last)], fs);
        OwedTokensOfFileJob(last, fs);
      } else {
        assert ReadJobs(fileNames, fs) == jobs;
        assert FilesTokens(fileNames, fs) == FilesTokens(init, fs) + [];
      }
    }
  }

  lemma OwedTokensOfFileJob(name: string, fs: FileSystem)
    requires name in fs
    ensures OwedTokens([FileJob(name)], fs) == FileTokens(fs[name])
  {
    assert OwedTokens([FileJob(name)], fs) == FileTokens(fs[name]) + OwedTokens([], fs);
  }

  /** The enqueued FileRead jobs report an error exactly when some named
      file that exists fails to read. */
  lemma {:induction false} ReadJobsFail(fileNames: seq<string>, fs: FileSystem)
    ensures AnyFails(ReadJobs(fileNames, fs), fs) <==>
      exists i :: 0 <= i < |fileNames| && fileNames[i] in fs && fs[fileNames[i]].readError
  {
    if fileNames != [] {
      var init, last := fileNames[..|fileNames| - 1], fileNames[|fileNames| - 1];
      ReadJobsFail(init, fs);
      var jobs := ReadJobs(init, fs);
      var tail := if last in fs then [FileJob(last)] else [];
      AnyFailsAppend(jobs, tail, fs);
      assert AnyFails(tail, fs) <==> last in fs && fs[last].readError by {
        if last in fs {
          assert tail[0] == FileJob(last);
        }
      }
      assert (exists i :: 0 <= i < |fileNames| && fileNames[i] in fs && fs[fileNames[i]].readError) <==>
             (exists i :: 0 <= i < |init| && init[i] in fs && fs[init[i]].readError) ||
             (last in fs && fs[last].readError) by {
        if exists i :: 0 <= i < |fileNames| && fileNames[i] in fs && fs[fileNames[i]].readError {
          var i :| 0 <= i < |fileNames| && fileNames[i] in fs && fs[fileNames[i]].readError;
          if i < |init| {
            assert fileNames[i] == init[i];
          }
        }
        if exists i :: 0 <= i < |init| && init[i] in fs && fs[init[i]].readError {
          var i :| 0 <= i < |init| && init[i] in fs && fs[init[i]].readError;
          assert fileNames[i] == init[i];
        }
      }
    }
  }

  /** When no file fails to read, the files contribute exactly the tokens of
      their texts, file after file. */
  lemma {:induction false} FilesTokensOfCompleteReads(fileNames: seq<string>, fs: FileSystem)
    requires forall i :: 0 <= i < |fileNames| ==> fileNames[i] in fs && !fs[fileNames[i]].readError
    ensures FilesTokens(fileNames, fs) == TextTokens(fileNames, fs)
  {
    if fileNames != [] {
      var init, last := fileNames[..|fileNames| - 1], fileNames[|fileNames| - 1];
      assert forall i :: 0 <= i < |init| ==> init[i] == fileNames[i];
      FilesTokensOfCompleteReads(init, fs);
      FileTokensOfCompleteRead(fs[last]);
    }
  }

  /** The tokens of the full texts of the named files, file after file. */
  function TextTokens(fileNames: seq<string>, fs: FileSystem): seq<string> {
    if fileNames == [] then []
    else
      var last := fileNames[|fileNames| - 1];
      TextTokens(fileNames[..|fileNames| - 1], fs) + (if last in fs then Tokens(Flatten(fs[last].blocks)) else [])
  }

  /** The state once the workers have run over the named files, starting
      from the counts `start`: the queue is empty, every file is processed,
      every word's count and the keys have grown by exactly the tokens of the
      files that exist, and an error is reported exactly when one of those
      files fails to read. */
  ghost predicate Completed(s: State, start: map<string, nat>, fileNames: seq<string>, fs: FileSystem) {
    && s.jobQueue == [] && s.filesProcessed == s.totalFiles == |fileNames|
    && (forall w :: CountOf(s.wordCount, w) == CountOf(start, w) + Occurrences(FilesTokens(fileNames, fs), w))
    && s.wordCount.Keys == start.Keys + Words(FilesTokens(fileNames, fs))
    && (s.errorOccured <==> exists i :: 0 <= i < |fileNames| && fileNames[i] in fs && fs[fileNames[i]].readError)
  }

  /** Enqueueing one more name extends the jobs and the missing-file test by
      that name. */
  lemma EnqueueStep(fileNames: seq<string>, i: nat, fs: FileSystem)
    requires i < |fileNames|
    ensures ReadJobs(fileNames[..i + 1], fs)
            == ReadJobs(fileNames[..i], fs) + (if fileNames[i] in fs then [FileJob(fileNames[i])] else [])
    ensures AnyMissing(fileNames[..i + 1], fs) <==> AnyMissing(fileNames[..i], fs) || fileNames[i] !in fs
  {
    assert fileNames[..i + 1][..i] == fileNames[..i];
    if AnyMissing(fileNames[..i + 1], fs) {
      var k :| 0 <= k < i + 1 && fileNames[..i + 1][k] !in fs;
      if k < i {
        assert fileNames[..i][k] == fileNames[..i + 1][k];
      }
    }
    if AnyMissing(fileNames[..i], fs) {
      var k :| 0 <= k < i && fileNames[..i][k] !in fs;
      assert fileNames[..i + 1][k] == fileNames[..i][k];
    }
  }

  /** With every named file present, the enqueued jobs leave the counter
      drain-ready. */
  lemma ReadJobsReady(start: map<string, nat>, fileNames: seq<string>, fs: FileSystem)
    requires !AnyMissing(fileNames, fs)
    ensures DrainReady(State(start, ReadJobs(fileNames, fs), |fileNames|, 0, false), fs)
  {
    ReadJobsCount(fileNames, fs);
  }

  /** What a worker run alone from `before` leaves behind in `after`: an
      empty queue, every file processed, the tokens the queue owed added to
      the counts and keys, and the error status of the queue's jobs. */
  ghost predicate WorkDone(before: State, after: State, fs: FileSystem) {
    && after.jobQueue == [] && after.filesProcessed == after.totalFiles == before.totalFiles
    && (forall w :: CountOf(after.wordCount, w) == CountOf(before.wordCount, w) + Occurrences(OwedTokens(before.jobQueue, fs), w))
    && after.wordCount.Keys == before.wordCount.Keys + Words(OwedTokens(before.jobQueue, fs))
    && after.errorOccured == (before.errorOccured || AnyFails(before.jobQueue, fs))
  }

  /** The first worker, started on the enqueued jobs, completes the run. */
  lemma FirstWorkCompletes(start: map<string, nat>, fileNames: seq<string>, fs: FileSystem, after: State)
    requires !AnyMissing(fileNames, fs)
    requires WorkDone(State(start, ReadJobs(fileNames, fs), |fileNames|, 0, false), after, fs)
    ensures Completed(after, start, fileNames, fs)
  {
    ReadJobsOwe(fileNames, fs);
    ReadJobsFail(fileNames, fs);
  }

  /** A completed state is drain-ready, and a later worker leaves it completed. */
  lemma CompletedIsIdle(start: map<string, nat>, fileNames: seq<string>, fs: FileSystem, before: State)
    requires Completed(before, start, fileNames, fs)
    ensures DrainReady(before, fs)
    ensures forall after :: WorkDone(before, after, fs) ==> Completed(after, start, fileNames, fs)
  {
    assert OwedTokens(before.jobQueue, fs) == [];
    assert Words(OwedTokens(before.jobQueue, fs)) == {};
  }

  // ---------------------------------------------------------------------
  // The word counter

  class WordCounter {
    var wordCount: map<string, nat>
    var jobQueue: seq<Job>
    var totalFiles: int
    var filesProcessed: int
    var errorOccured: bool
    /** The number of workers ProcessFiles spawns, fixed at construction. */
    const numWorkers: int

    /** The shared state as a value. */
    function Snapshot(): State
      reads this
    {
      State(wordCount, jobQueue, totalFiles, filesProcessed, errorOccured)
    }

    constructor (numWorkers: int := 8)
      ensures Snapshot() == State(map[], [], 0, 0, false)
      ensures this.numWorkers == numWorkers
    {
      this.numWorkers := numWorkers;
      wordCount := map[];
      jobQueue := [];
      totalFiles := 0;
      filesProcessed := 0;
      errorOccured := false;
    }

    /** Counts the tokens of one chunk in a local dictionary, then adds each
        local count to the shared counts. */
    method ProcessWords(content: string)
      modifies this`wordCount
      ensures wordCount == AddCounts(old(wordCount), Tokens(content))
    {
      var words := Tokens(content);
      var localWordCount := CountWords(words);
      ghost var shared := wordCount;
      var keys := localWordCount.Keys;
      while keys != {}
        invariant MergedSoFar(wordCount, shared, localWordCount, keys)
        decreases keys
      {
        var key :| key in keys;
        MergeKey(wordCount, shared, localWordCount, keys, key);
        var value := localWordCount[key];
        wordCount := wordCount[key := if key in wordCount then wordCount[key] + value else value];
        keys := keys - {key};
      }
      MergeIsAddCounts(shared, localWordCount, words, wordCount);
    }

    /** Reads a file block by block, carrying the partial word at the end of
        each block over to the next, and enqueues one WordProcess job per
        block and one for the final carry; a failing read is reported and
        ends the file. */
    method ProcessFile(file: FileData)
      modifies this`jobQueue, this`errorOccured
      ensures jobQueue == old(jobQueue) + WordJobs(FileChunks("", file.blocks, file.readError))
      ensures errorOccured == (old(errorOccured) || file.readError)
    {
      var blocks: seq<string> := file.blocks;
      ghost var target := jobQueue + WordJobs(FileChunks("", blocks, file.readError));
      var trailingWord := "";
      var i := 0;
      ghost var pending := WordJobs(FileChunks(trailingWord, blocks, file.readError));
      assert blocks[0..] == blocks;
      while i < |blocks|
        invariant 0 <= i <= |blocks|
        invariant pending == WordJobs(FileChunks(trailingWord, blocks[i..], file.readError))
        invariant jobQueue + pending == target
        invariant errorOccured == old(errorOccured)
      {
        var contentChunk := trailingWord + blocks[i];
        var cut := CutWord(contentChunk);
        ghost var later := WordJobs(FileChunks(cut.trailing, blocks[i + 1..], file.readError));
        ReadStep(trailingWord, blocks, i, file.readError);
        AppendAssoc(jobQueue, [WordJob(cut.chunk)], later);
        trailingWord := cut.trailing;
        jobQueue := jobQueue + [WordJob(cut.chunk)];
        pending := later;
        i := i + 1;
      }
      LastRead(trailingWord, blocks, file.readError);
      if file.readError {
        errorOccured := true;
      } else {
        jobQueue := jobQueue + [WordJob(trailingWord)];
      }
    }

    /** One iteration of a worker's loop: dequeue at most one job and handle it. */
    method WorkerStep(fs: FileSystem) returns (outcome: StepOutcome)
      modifies this
      ensures (outcome, Snapshot()) == Step(old(Snapshot()), fs)
    {
      if jobQueue == [] {
        outcome := if filesProcessed >= totalFiles then Exit else Continue;
        return;
      }
      var job := jobQueue[0];
      jobQueue := jobQueue[1..];
      outcome := Continue;
      match job.kind
      case FileRead =>
        if job.fileName.None? {
          errorOccured := true;
          filesProcessed := filesProcessed + 1;
        } else if job.fileName.value !in fs {
          outcome := Fault;
        } else {
          ProcessFile(fs[job.fileName.value]);
          filesProcessed := filesProcessed + 1;
        }
      case WordProcess =>
        if job.content.None? {
          errorOccured := true;
        } else {
          ProcessWords(job.content.value);
        }
    }

    /** A worker's loop, run alone: it handles jobs until the queue is empty
        and every file has been processed. Every token the queue owed is
        then in the shared counts, and an error has been reported exactly
        when one was reported before or some job failed. */
    method Work(fs: FileSystem)
      requires DrainReady(Snapshot(), fs)
      modifies this
      ensures jobQueue == [] && filesProcessed == totalFiles == old(totalFiles)
      ensures forall w :: CountOf(wordCount, w) == CountOf(old(wordCount), w) + Occurrences(OwedTokens(old(jobQueue), fs), w)
      ensures wordCount.Keys == old(wordCount).Keys + Words(OwedTokens(old(jobQueue), fs))
      ensures errorOccured == (old(errorOccured) || AnyFails(old(jobQueue), fs))
    {
      while true
        invariant DrainReady(Snapshot(), fs)
        invariant totalFiles == old(totalFiles)
        invariant forall w :: CountOf(wordCount, w) + Occurrences(OwedTokens(jobQueue, fs), w)
                           == CountOf(old(wordCount), w) + Occurrences(OwedTokens(old(jobQueue), fs), w)
        invariant wordCount.Keys + Words(OwedTokens(jobQueue, fs))
               == old(wordCount).Keys + Words(OwedTokens(old(jobQueue), fs))
        invariant (errorOccured || AnyFails(jobQueue, fs)) == (old(errorOccured) || AnyFails(old(jobQueue), fs))
        decreases PendingReads(jobQueue), |jobQueue|
      {
        ghost var before := Snapshot();
        StepKeepsDrainReady(before, fs);
        StepConservesCounts(before, fs);
        StepConservesKeys(before, fs);
        var outcome := WorkerStep(fs);
        if outcome != Continue {
          assert jobQueue == [];
          break;
        }
      }
      assert Words(OwedTokens([], fs)) == {};
    }

    /** Enqueues a FileRead job for every named file that exists, reports
        each missing one, and runs the workers only when no error has been
        reported. */
    method ProcessFiles(fileNames: seq<string>, fs: FileSystem)
      requires jobQueue == [] && filesProcessed == 0
      modifies this
      ensures totalFiles == |fileNames|
      ensures old(errorOccured) || AnyMissing(fileNames, fs) || numWorkers <= 0 ==>
        wordCount == old(wordCount) && jobQueue == ReadJobs(fileNames, fs) && filesProcessed == 0 &&
        errorOccured == (old(errorOccured) || AnyMissing(fileNames, fs))
      ensures !old(errorOccured) && !AnyMissing(fileNames, fs) && numWorkers > 0 ==>
        Completed(Snapshot(), old(wordCount), fileNames, fs)
    {
      totalFiles := |fileNames|;
      for i := 0 to |fileNames|
        invariant jobQueue == ReadJobs(fileNames[..i], fs)
        invariant errorOccured == (old(errorOccured) || AnyMissing(fileNames[..i], fs))
        invariant wordCount == old(wordCount) && filesProcessed == 0 && totalFiles == |fileNames|
      {
        var fileName := fileNames[i];
        EnqueueStep(fileNames, i, fs);
        if fileName in fs {
          jobQueue := jobQueue + [FileJob(fileName)];
        } else {
          errorOccured := true;
        }
      }
      assert fileNames[..|fileNames|] == fileNames;
      if !errorOccured {
        ghost var start := wordCount;
        ReadJobsReady(start, fileNames, fs);
        var k := 0;
        while k < numWorkers
          invariant totalFiles == |fileNames| && (k == 0 || k <= numWorkers)
          invariant k == 0 ==> Snapshot() == State(start, ReadJobs(fileNames, fs), |fileNames|, 0, false)
          invariant k > 0 ==> Completed(Snapshot(), start, fileNames, fs)
        {
          ghost var before := Snapshot();
          if k > 0 {
            CompletedIsIdle(start, fileNames, fs, before);
          }
          Work(fs);
          assert WorkDone(before, Snapshot(), fs);
          if k == 0 {
            FirstWorkCompletes(start, fileNames, fs, Snapshot());
          }
          k := k + 1;
        }
      }
    }
  }

}
