# Word counter and FizzBuzz, modelled in Dafny

This project models two pieces of a small C# repository.

**The word counter** (`WordCounter/WordCounter.cs`) counts the words of several
text files with a pool of workers sharing one job queue. A `FileRead` job makes a
worker read its file block by block. A block is prefixed with the partial word
carried over from the previous block and cut at its last space (`CutWord`). The
text before the cut becomes a `WordProcess` job. The partial word after it is
carried on, and the final carry is queued when the file ends. A `WordProcess`
job splits its chunk on `[\W_]+`, counts the words in a local dictionary, and
adds those counts to the shared dictionary. Missing files and failing reads set
the shared error flag.

**FizzBuzz** (`FizzBuzz/Program.cs`) maps a natural non-zero number to "Fizz",
"Buzz", "FizzBuzz" or its decimal string. Anything below 1 is rejected. A list
wrapper applies the rule element by element.

The files:

- `tokenizer.dfy` (module `Tokenizer`): tokenizing a chunk, and counting tokens
  into the local and shared dictionaries.
- `chunking.dfy` (module `Chunking`): `CutWord` and the block-by-block read loop
  of a file, seen as the list of chunks it emits.
- `engine.dfy` (module `Engine`): the jobs, and one worker iteration as a pure
  transition `Step`. Also the class `WordCounter`, whose fields are the shared
  state. Its methods follow the source's methods:
  - `ProcessWords`
  - `ProcessFile` (the read loop of `ProcessFileAsync`)
  - `WorkerStep` (one iteration of `WorkerAsync`)
  - `Work` (a whole worker loop)
  - `ProcessFiles` (`ProcessFilesAsync`)
- `fizzbuzz.dfy` (module `FizzBuzzer`): the rule and the list wrapper.

The jobs (`WordCounter/WordCounter.cs:8-19`) are the datatypes `Engine.JobType`
(`FileRead` or `WordProcess`) and `Engine.Job`, a kind with an optional file
name and optional content, since either may be null in the source. The number
of workers is, as in the source's primary constructor
(`WordCounter/WordCounter.cs:26`), an argument of the `WordCounter` constructor,
8 by default, and `ProcessFiles` spawns that many.

The main results:

- Cutting a file into chunks never splits or loses a word, wherever the block
  boundaries fall (`ChunkingPreservesTokens`, `ChunkingIgnoresBlockBoundaries`).
- Each worker iteration moves tokens from the queue into the shared counts
  without losing any (`StepConservesCounts`).
- From the state `ProcessFiles` sets up, a worker never faults and finishes
  (`StepKeepsDrainReady`, `Work`), given that every file that exists can be
  opened (see "Left out").
- When every file exists and a worker is started, the shared count of every
  word grows by exactly its number of occurrences in the chunks the files'
  reads emit (`ProcessFiles`). For files read to their end, those are the
  tokens of their whole text (`FilesTokensOfCompleteReads`). The words that
  become keys of the shared dictionary are exactly the old keys plus the words
  of those chunks.

Where the code and its comments differ, the model follows the code:

- `ProcessWords` keeps the case of every word. Its doc comment
  (`WordCounter/WordCounter.cs:196-197`) says words are lowercased, but nothing
  in the code does that.
- Counts are merged into the shared dictionary chunk by chunk, right after each
  chunk is counted. They are not merged once at the end.
- The queue is unbounded.
- A single missing file sets the error flag before the workers are spawned. No
  worker then runs, so nothing at all is counted.
- `_totalFiles` includes the missing files.
- A `FileRead` job whose file cannot be opened makes that worker's task fault
  (outcome `Fault` of `Step`). The `StreamReader` is created outside the `try`
  of `ProcessFileAsync`.

## Model

| member | source | states |
|---|---|---|
| Tokenizer.IsWordChar | WordCounter/WordCounter.cs:203 | the letters and digits are word characters; the underscore and the space, like every other character, separate words |
| Tokenizer.Pieces | WordCounter/WordCounter.cs:203 | splitting at each separator character leaves at least one piece, and every piece is made only of word characters |
| Tokenizer.NonEmpty | WordCounter/WordCounter.cs:204 | the filter keeps only non-empty strings, each taken from its input |
| Tokenizer.Tokens | WordCounter/WordCounter.cs:203-205 | the words of a chunk: the non-empty pieces between separators, in order and with their case; its properties are the lemmas below |
| Tokenizer.TokensAreWords | WordCounter/WordCounter.cs:203-205 | every token of a chunk is a non-empty run of letters and digits |
| Tokenizer.TokensSplit | WordCounter/WordCounter.cs:203-205 | a separator character between two texts splits their tokens: the tokens of the whole are those of the left part followed by those of the right |
| Tokenizer.TokensAfterSeparator | WordCounter/WordCounter.cs:203-205 | text that is empty or ends in a separator can be put in front of any text without merging tokens |
| Tokenizer.TokensOfWord | WordCounter/WordCounter.cs:203-205 | a word with no separator in it is exactly one token, itself |
| Tokenizer.TokensOfTwoWords | WordCounter/WordCounter.cs:196-205 | two words around one separator (space, underscore or any non-word character) are exactly those two tokens as written, so case is not folded |
| Tokenizer.TokensKeepWordChars | WordCounter/WordCounter.cs:203-205 | joined together, the tokens are exactly the word characters of the chunk, in order: the split drops only separators |
| Tokenizer.WordsAppend | WordCounter/WordCounter.cs:221-228 | the distinct words of two word lists together are those of each |
| Tokenizer.AddCounts | WordCounter/WordCounter.cs:221-228 | adding words to a dictionary adds exactly the words as keys, and raises each word's count by its number of occurrences |
| Tokenizer.OccurrencesPositive | WordCounter/WordCounter.cs:210-217 | a word has a positive count exactly when it occurs |
| Tokenizer.CountWords | WordCounter/WordCounter.cs:207-217 | the local dictionary has exactly the distinct words as keys, each mapped to its number of occurrences, which is at least 1 |
| Tokenizer.MergeKey | WordCounter/WordCounter.cs:223-227 | one AddOrUpdate adds that key's local count to its shared count (or inserts it), and the merge then covers one more key |
| Tokenizer.MergeIsAddCounts | WordCounter/WordCounter.cs:219-228 | once every local count is added, the shared dictionary equals the old one with every word of the chunk added |
| Chunking.LastIndexOf | WordCounter/WordCounter.cs:255 | the index found holds the character, and no later index does; -1 when the character is absent |
| Chunking.CutWord | WordCounter/WordCounter.cs:252-274 | the carried part never holds a space. Empty text, or text ending in a space, is emitted whole with nothing carried. Text without a space is carried whole. Otherwise chunk, one space and carried part give back the text |
| Chunking.CutWordExamples | TestWordCounter/UnitTests/UnitTest1.cs:26-27 | the two cases of the CutWord unit test ("hello world again" with and without a final space) |
| Chunking.FileChunks | WordCounter/WordCounter.cs:161-193 | the read loop emits one chunk per block read, plus the final carry unless the last read throws |
| Chunking.FinalCarry | WordCounter/WordCounter.cs:171-188 | the partial word carried after the last block holds no space, unless no block was read |
| Chunking.CutWordKeepsTokens | WordCounter/WordCounter.cs:181-185 | the emitted chunk's tokens followed by those of the carry and any later text are the tokens of the text and that later text: a cut never splits a word |
| Chunking.ChunksKeepTokens | WordCounter/WordCounter.cs:166-188 | the chunks emitted so far plus the final carry hold exactly the tokens of the text read |
| Chunking.ChunksStep | WordCounter/WordCounter.cs:179-185 | one read emits the first chunk's tokens ahead of those of the rest |
| Chunking.FinalChunkIsCarry | WordCounter/WordCounter.cs:171-175 | a file read to its end emits the chunks of the blocks and then the final carry |
| Chunking.ChunkingPreservesTokens | WordCounter/WordCounter.cs:161-193 | for a file read to its end, the chunks together hold exactly the tokens of the file's whole text, in order |
| Chunking.ChunkingIgnoresBlockBoundaries | WordCounter/WordCounter.cs:168-185 | two block divisions of the same text give the same tokens, so the counts do not depend on the block size |
| Engine.JobFails | WordCounter/WordCounter.cs:122-147 | a job reports an error exactly when its payload is null or it reads a file whose read throws (the LogError calls at lines 124, 144 and 190) |
| Engine.WorkerExits | WordCounter/WordCounter.cs:111 | a worker leaves its loop when nothing is dequeued and the files processed reach the total |
| Engine.Step | WordCounter/WordCounter.cs:100-152 | one worker iteration. It exits exactly when nothing is dequeued and every file is processed, and with an empty queue nothing changes. It faults exactly on a FileRead of a file that does not exist. Otherwise the job is dequeued and a FileRead counts one more file processed. The error flag is raised exactly by a null payload or a failing read. Only a WordProcess job with content changes the counts |
| Engine.WordJobsAppend | WordCounter/WordCounter.cs:173-185 | the jobs of two runs of chunks are the jobs of each, in order |
| Engine.OwedTokensAppend | WordCounter/WordCounter.cs:100-152 | the tokens a queue owes split over concatenation |
| Engine.PendingReadsAppend | WordCounter/WordCounter.cs:61-64 | FileRead jobs in a concatenation add up |
| Engine.ReadStep | WordCounter/WordCounter.cs:168-186 | one read enqueues the job of the cut chunk ahead of the jobs of the remaining blocks |
| Engine.LastRead | WordCounter/WordCounter.cs:169-192 | the read after the last block enqueues the final carry, or nothing when it throws |
| Engine.WordJobsOwe | WordCounter/WordCounter.cs:136-147 | the jobs of a file's chunks owe exactly the chunks' tokens, hold no FileRead job and never report an error |
| Engine.FileTokensOfCompleteRead | WordCounter/WordCounter.cs:161-193 | a file read to its end contributes exactly the tokens of its text |
| Engine.StepConservesCounts | WordCounter/WordCounter.cs:100-152 | in a worker iteration that does not fault, every word's shared count plus what the queue still owes for it stays the same |
| Engine.StepConservesKeys | WordCounter/WordCounter.cs:100-152 | in a worker iteration that does not fault, the keys of the shared counts plus the words the queue still owes stay the same |
| Engine.ChunkJobsOweWords | WordCounter/WordCounter.cs:173-185 | enqueueing a file's chunk jobs adds exactly the words of its chunks to the words the queue owes |
| Engine.StepKeepsDrainReady | WordCounter/WordCounter.cs:100-152 | from a state where every unprocessed file has an openable FileRead job queued, an iteration never faults and keeps that so. It exits only with an empty queue and every file processed, and otherwise handles a job. The error flag, or a failing queued job, is kept |
| Engine.QueueHead | WordCounter/WordCounter.cs:111 | a queue seen as its front job and the rest, for pending reads, failing jobs and openable jobs |
| Engine.ChunkJobsKeepQueue | WordCounter/WordCounter.cs:173-185 | enqueueing a file's chunk jobs adds no FileRead job, no failing job and no job that cannot be opened |
| Engine.AnyFailsAppend | WordCounter/WordCounter.cs:100-152 | a concatenation holds a failing job exactly when one of its parts does |
| Engine.ReadJobsCount | WordCounter/WordCounter.cs:57-70 | with every file present, one FileRead job is queued per name |
| Engine.ReadJobs | WordCounter/WordCounter.cs:59-70 | at most one job per name, and every job is a FileRead naming a file that exists |
| Engine.EnqueueStep | WordCounter/WordCounter.cs:59-70 | one more name adds its FileRead job exactly when the file exists, and is missing exactly when it does not |
| Engine.ReadJobsOwe | WordCounter/WordCounter.cs:59-70 | the queued FileRead jobs owe exactly the tokens of the existing files, in order |
| Engine.OwedTokensOfFileJob | WordCounter/WordCounter.cs:130-135 | the FileRead job of an existing file owes exactly that file's tokens |
| Engine.ReadJobsFail | WordCounter/WordCounter.cs:59-70 | the queued jobs hold a failing one exactly when some existing named file fails to read |
| Engine.FilesTokensOfCompleteReads | WordCounter/WordCounter.cs:54-90 | when every named file exists and reads to its end, the tokens counted are those of the files' texts |
| Engine.ReadJobsReady | WordCounter/WordCounter.cs:54-84 | with no name missing, the enqueued jobs leave a fresh counter drain-ready: every file to process has its openable FileRead job queued |
| Engine.FirstWorkCompletes | WordCounter/WordCounter.cs:72-84 | the first worker run on the enqueued jobs leaves every file processed, every word counted once per occurrence in the chunks the files' reads emit, the keys grown by their words, and the error flag raised exactly when some file fails to read |
| Engine.CompletedIsIdle | WordCounter/WordCounter.cs:76-81 | a completed run is drain-ready, and the workers after the first leave it completed, so spawning several changes nothing |
| Engine.WordCounter.constructor | WordCounter/WordCounter.cs:26-51 | a new counter has no counts, an empty queue, no files and no error, and keeps the given number of workers |
| Engine.WordCounter.ProcessWords | WordCounter/WordCounter.cs:201-229 | the shared counts become the old counts with every token of the chunk added, case kept |
| Engine.WordCounter.ProcessFile | WordCounter/WordCounter.cs:161-193 | the queue gains the WordProcess jobs of the file's chunks, in order. The error flag is raised exactly when the last read throws |
| Engine.WordCounter.WorkerStep | WordCounter/WordCounter.cs:100-152 | its outcome and the new shared state are those of Step on the old state |
| Engine.WordCounter.Work | WordCounter/WordCounter.cs:100-152 | from a drain-ready state a worker ends with an empty queue and every file processed. The counts gain exactly the tokens the queue owed, and the keys exactly their words. The error flag is raised exactly when it was raised before or some job failed |
| Engine.WordCounter.ProcessFiles | WordCounter/WordCounter.cs:54-90 | totalFiles is the number of names. If a file is missing, an error was already raised, or no worker is spawned, only the existing files' read jobs are queued, nothing is counted, and the flag records missing files. Otherwise every word's count grows by its occurrences in the files' chunks, the keys grow by exactly those words, and the flag is raised exactly when some file fails to read |
| FizzBuzzer.Decimal | FizzBuzz/Program.cs:28 | the decimal string of a number is non-empty, all digits and, for a positive number, without a leading zero |
| FizzBuzzer.DecimalRoundTrip | FizzBuzz/Program.cs:28 | reading back the decimal string of a number gives the number |
| FizzBuzzer.DecimalInjective | FizzBuzz/Program.cs:28 | two numbers with the same decimal string are equal |
| FizzBuzzer.FizzBuzz | FizzBuzz/Program.cs:10-29 | out of range exactly below 1. Divisible by 3 and 5 gives "FizzBuzz", by 3 only "Fizz", by 5 only "Buzz". Otherwise a digit string without a leading zero that reads back as the input |
| FizzBuzzer.FizzBuzzDistinguishes | FizzBuzz/Program.cs:18-28 | the output is a word exactly when 3 or 5 divides the input, and a number output determines the input |
| FizzBuzzer.FizzBuzzExamples | TestProject1/UnitTest1.cs:32-82 | the unit-test cases: 3, 5, 15 give the words, 7, 13, 22 their digits, 0 and -1 are out of range |
| FizzBuzzer.FizzBuzzLst | FizzBuzz/Program.cs:31-41 | out of range exactly when some element is below 1. Otherwise a list of the same length whose i-th element is the rule applied to the i-th input |

## Left out

- Concurrency. Workers run one at a time here, each iteration as one atomic step (`Step`), and the pool of `numWorkers` workers is modelled by running them one after the other. Interleavings, the locks and the `ConcurrentQueue`/`ConcurrentDictionary` internals are not modelled. The worker that dequeues nothing while files are still being read (it goes round again) appears only as a `Step` that changes nothing.
- I/O. `File.Exists`, opening and reading a file are replaced by a `FileSystem` value. It maps a name to the non-empty blocks successive reads return, plus whether the read after the last block throws. Block sizes and the `chunkSize + longestWord` buffer are not modelled. For a fixed decoded text and any `chunkSize` of at least 1, `ChunkingIgnoresBlockBoundaries` shows the counts do not depend on where the blocks end.
- The text encoding. `StreamReader` decodes the file's bytes (UTF-8 by default), and the model starts from the decoded characters. Another encoding gives other characters and so other words.
- A `chunkSize` below 1 (`WordCounter/WordCounterCommands.cs:12`). With 0, the first `ReadBlockAsync` returns 0, so every file is read as empty and nothing is counted, with no error. A negative one makes `ReadBlockAsync` throw inside the `try`, so every file only raises the error flag; one below `-longestWord` already fails at the buffer allocation (`WordCounter/WordCounter.cs:117`), outside any `try`. The model's files always read their blocks.
- A file that exists but cannot be opened (no read permission, a file removed after `File.Exists`) is not modelled: every file in the `FileSystem` opens. In the source, `new StreamReader` (`WordCounter/WordCounter.cs:133`) throws outside the `try`, and that worker's task faults before `_filesProcessed` is incremented. With at least one surviving worker, the survivors loop forever at line 111 and `ProcessFilesAsync` never returns; when no worker survives (one worker, or every worker faulting), `Task.WhenAll` at line 82 rethrows the exception out of `ProcessFilesAsync`, which then ends without printing the counts. Opening a name absent from the `FileSystem` is the `Fault` outcome of `Step`, but `ProcessFiles` never queues such a name.
- A throw from the first read is a file with no blocks and `readError` set. A throw from a later read is a file whose blocks stop there. As in the source's `catch` (`WordCounter/WordCounter.cs:188-191`), the word carried at that point is then never queued, even when it was read whole: blocks `"hello world"` followed by a throwing read count `hello` but not `world`.
- Logging. `LogError` (`WordCounter/WordCounter.cs:275-289`) only sets the error flag here. The log file, console messages and `PrintWordCounts` with its descending-by-count order are left out.
- `Tokenizer.IsWordChar`: `\W` in .NET is Unicode-aware. The model takes the ASCII letters and digits as word characters and every other character as a separator.
- `Tokenizer.AddCounts`: counts are unbounded integers. The 32-bit `int` counts of the source could overflow, and that is not modelled.
- `Engine.WordCounter.ProcessFiles`: requires an empty queue and no file processed yet, as on a fresh counter. Every caller builds a new counter for each run (`WordCounter/Program.cs:13`, `WordCounter/WordCounterCommands.cs:23`, and every test), so a second run on the same counter, where `_filesProcessed` keeps its old value while `_totalFiles` is overwritten, is not modelled.
- `Engine.WordCounter.Work`: requires that every unprocessed file has an openable FileRead job queued (`DrainReady`). From any other state the source's worker can spin forever or fault; `Step` covers a single iteration from any state.
- The choice of queue type and its `ArgumentException` for an unsupported type are not modelled: only `ConcurrentQueue` exists.
- `FizzBuzz/Program.cs` `Main` (console loop, `int.Parse`, printing) is not part of this model. The thrown `ArgumentOutOfRangeException` is the `OutOfRange` result, and its console message is left out.
