# newsmangler `Poster`, modelled in Dafny

newsmangler posts the files of one or more directories to a Usenet
newsgroup. It splits every file into parts of at most `article_size`
bytes and wraps each part in a yEnc 1.3 envelope. It then hands the
articles to a pool of NNTP connections. This project models the three
pieces of `classes/Poster.py` that do that work:

- **The work scheduler**, `generate_article_list`. Each directory has
  its trailing separator trimmed, and an empty name is skipped. The
  regular, non-empty files are kept and sorted by name. Each file
  contributes `ceil(size / article_size)` work items, each a
  `(fileinfo, subject template, part number)` triple, appended to the
  FIFO queue `_articles` in file order and part order.
- **The article builder**, `build_article`. It keeps the registry
  `_files` of open handles, one per path. It reads the next
  `article_size` bytes of a part, closes the handle after the last
  part, and renders the article text:
  - the `From`, `Newsgroups`, `Date`, `Subject` and `X-Newsposter`
    headers;
  - `=ybegin`, `=ypart`, the encoded body and `=yend` with the part's
    CRC-32;
  - the end-of-data line of section 3.1.1 of RFC 3977.
- **The dispatch, completion and reconnect steps of `post`'s event
  loop.** The oldest idle connection is paired with the head of the
  queue until one of the two runs out. The loop ends when the queue is
  empty and every connection is idle. Disconnected connections whose
  retry time has come are reconnected, at most once a second.

The model has seven modules:

- `Results`: Option and Result.
- `Formats`: decimal, zero-padded decimal, `%08x` of a 32-bit mask, and
  Python's one-argument `%` interpolation.
- `Names`: the order `files.sort()` uses.
- `Scheduler`: the specification functions of the scheduler.
- `Envelope`: the article's lines, with readers that parse the numbers
  back.
- `Builder`: the registry, the byte windows and the rendered text.
- `Posting`: the class `Poster`, whose methods change the queue, the
  idle list, the registry and the record of `do_connect` and
  `post_article` calls in place. Each method is proved against the
  specification functions above.

The main results:

- The scheduler's queue is exactly the concatenation of per-file blocks.
  Each block holds parts `1..parts` of one file, with `parts` the ceiling
  division. Every subject template accepts its part number; this holds
  of the corrected template (see Findings), and of the template as
  written whenever the names hold no `%`.
- Reading a file's parts in queue order yields windows. They start at 0,
  each `begin` is the previous `end`, each holds at most `article_size`
  bytes, the last ends at the file size, and together they hold the
  file's bytes. The handle is open from the first part to the last and
  gone after it.
- Draining a queue that the scheduler built against unchanged files,
  from an empty registry, fails nowhere. With at least as many idle
  connections as articles, one dispatch takes the whole queue: the k-th
  post goes to the k-th idle connection and carries window `partnum-1`
  of the k-th article's file, and the registry ends empty.
- With fewer idle connections, a later dispatch round picks up where the
  earlier one stopped: two rounds together post what one run of reads
  over the articles they took gives.
- Every rendered article parses back to the headers, the `=ybegin`,
  `=ypart` and `=yend` values it was built from, and ends in `\r\n.\r\n`.

## Model

| member | source | states |
|---|---|---|
| Scheduler.TrimSep | classes/Poster.py:141-142 | a name ending in the separator loses exactly that one character; any other name is unchanged |
| Scheduler.Join | classes/Poster.py:152-160 | `os.path.join` on a POSIX system; `JoinParts` proves the path starts with the directory and ends with the listed name, with at most one separator between |
| Scheduler.JoinParts | classes/Poster.py:152-160 | a directory joined with a name that holds no separator starts with the directory, ends with the name, and is at most one character longer than the two |
| Scheduler.PartCount | classes/Poster.py:163-167 | the part count is zero exactly when the file is empty |
| Scheduler.DivModParts | classes/Poster.py:163-167 | `divmod` followed by "one more if there is a remainder" equals the model's part count |
| Scheduler.PartCountOffsets | classes/Poster.py:163-167 | a non-empty file's last part begins inside the file (`Offset(parts-1) < size`) and the parts reach its end (`size <= Offset(parts)`) |
| Scheduler.PartCountBounds | classes/Poster.py:163-167 | the part count is the ceiling division: `(parts-1)*a < size <= parts*a` |
| Scheduler.OffsetIsProduct | classes/Poster.py:200-202 | the offset reached after `i` full reads of `a` bytes is `i*a` |
| Scheduler.OffsetMonotone | classes/Poster.py:200-202 | later parts start at offsets no smaller than earlier ones |
| Scheduler.DivModUnique | classes/Poster.py:163 | the quotient and remainder of `divmod` are the unique `q, r` with `x == q*d + r`, `r < d` |
| Scheduler.Retained | classes/Poster.py:150-155 | the filter keeps at most the entries it is given |
| Scheduler.RetainedPostable | classes/Poster.py:151-155 | an entry is kept exactly when it is listed, is a regular file and has non-zero size |
| Scheduler.InsertByName | classes/Poster.py:156 | inserting into a sorted list adds exactly that entry |
| Scheduler.InsertByNameSorted | classes/Poster.py:156 | inserting into a list sorted by name keeps it sorted |
| Scheduler.SortByName | classes/Poster.py:156 | the sorted list is a permutation of its input and is sorted by name |
| Scheduler.DirFilesPostable | classes/Poster.py:149-156 | a directory's files, after the filter and the sort, are exactly its regular non-empty entries |
| Scheduler.DirFilesNonEmpty | classes/Poster.py:154 | every file scheduled from a directory has non-zero size |
| Scheduler.DirFiles | classes/Poster.py:150-156 | the filter and the sort of one listing; `DirFilesPostable` proves it holds exactly the regular non-empty entries, `SortByName` that they are sorted by name |
| Scheduler.DigitsHaveNoPercent | classes/Poster.py:170-171 | the zero-padded file number contains no `%` |
| Scheduler.SubjectTemplateFills | classes/Poster.py:170-174 | the corrected template, filled with a part number, yields dirname, file number, file count, filename and part count around the number, with the names as given |
| Scheduler.SubjectTemplateAsWrittenBreaks | classes/Poster.py:172-174 | the template as written, for a file named `x%s`, cannot be filled with a part number |
| Scheduler.SubjectTemplate | classes/Poster.py:172-174 | the subject template with the names' `%` escaped; `SubjectTemplateFills` proves that filling it with a part number gives the intended subject |
| Scheduler.SubjectTemplateAsWritten | classes/Poster.py:172-174 | the subject template as the code builds it; `SubjectTemplateAsWrittenBreaks` proves a file named `x%s` breaks it, `SubjectTemplateUnescaped` that it is the corrected template whenever the names hold no `%` |
| Scheduler.SubjectTemplateUnescaped | classes/Poster.py:172-174 | for names without `%`, the template as written and the corrected template are the same string |
| Scheduler.SubjectTemplateAsWrittenFills | classes/Poster.py:172-216 | for names without `%`, the template as written, filled with a part number, gives the intended subject |
| Scheduler.InfoFor | classes/Poster.py:160-182 | the `fileinfo` record: name, joined path, size and part count; `PartCountBounds` proves the count is the ceiling division |
| Scheduler.FileBlock | classes/Poster.py:163-186 | one file's articles; `FileArticles` proves they are parts `1..parts` with one file info and one subject, `FileBlockScheduled` that each is well-formed |
| Scheduler.FilesArticles | classes/Poster.py:158-188 | the articles of a directory's files, numbered from 1; `FilesArticlesLayout` proves they are the files' blocks, contiguous and in file order |
| Scheduler.FileArticles | classes/Poster.py:184-186 | a file contributes `parts` articles, the i-th with part number `i+1` and the same file info and subject |
| Scheduler.DirSchedule | classes/Poster.py:140-149 | an empty name (after trimming) contributes nothing; a directory fails exactly when its trimmed name cannot be listed |
| Scheduler.ScanStops | classes/Poster.py:140-149 | once a directory fails, later directories change nothing |
| Scheduler.ScanGrows | classes/Poster.py:140-186 | the queue is only appended to: the queue after a directory extends the queue before it |
| Scheduler.ScanNext | classes/Poster.py:140-188 | scanning one more directory appends that directory's articles, or records it as the failure and appends nothing |
| Scheduler.ScheduleNext | classes/Poster.py:140-188 | `ScanNext` for the scheduler's own per-directory step |
| Scheduler.FilesArticlesNext | classes/Poster.py:158-188 | handling one more file appends its block, numbered `j+1` and padded to the width of the file count |
| Scheduler.BlockPlacedInFront | classes/Poster.py:184-186 | appending a later block leaves an earlier file's block in place |
| Scheduler.BlockPlacedLast | classes/Poster.py:184-188 | the last file's block sits right after the blocks of the files before it |
| Scheduler.BlocksPlacedStep | classes/Poster.py:159-188 | every file's block stays in place when one more file is handled |
| Scheduler.FilesArticlesLayout | classes/Poster.py:158-188 | the queue built from a directory's files is their blocks, contiguous, in file order, its length the total part count |
| Scheduler.FileBlockScheduled | classes/Poster.py:163-186 | every article of a non-empty file has `1 <= partnum <= parts` with `parts` the ceiling division, and a template that accepts its part number |
| Scheduler.FilesArticlesScheduled | classes/Poster.py:158-188 | the same for every article of a directory's files |
| Scheduler.AllScheduledAppend | classes/Poster.py:186 | appending well-formed articles to a well-formed queue keeps it well-formed |
| Scheduler.DirScheduleScheduled | classes/Poster.py:140-188 | every article a directory contributes is well-formed |
| Scheduler.ScanScheduled | classes/Poster.py:140-188 | every article of the whole scan is well-formed |
| Scheduler.Extend | classes/Poster.py:140-149 | one more directory's outcome added to the scan; `ScanGrows` proves the queue only grows, `ScanStops` that nothing changes after a failure |
| Scheduler.ScanFirst | classes/Poster.py:140-188 | the scan of the first `n` directories; `ScanNext` proves each further directory appends its articles or records the failure |
| Scheduler.Schedule | classes/Poster.py:139-188 | what `generate_article_list` queues; `ScanScheduled` proves every article well-formed, `Builder.ScanReads` that the queue reads as its files' windows |
| Formats.DigitChar | classes/Poster.py:171 | a digit value renders as a decimal digit |
| Formats.Decimal | classes/Poster.py:170-173 | `str(n)` is a non-empty string of digits without a leading zero, one digit exactly below 10 |
| Formats.ParseDecimal | classes/Poster.py:170-173 | a string parses as a number exactly when it is a non-empty string of digits |
| Formats.DecimalRoundTrip | classes/Poster.py:170-173 | `str(n)` parses back to `n` |
| Formats.DecimalLengthMonotone | classes/Poster.py:170 | a larger number has at least as many digits, so every file number fits the width of the file count |
| Formats.Zeros | classes/Poster.py:170-171 | the padding is exactly `k` zeros |
| Formats.ZeroPad | classes/Poster.py:170-171 | `%0Nd` keeps the number as its suffix and pads it with zeros to width `N` |
| Formats.LeadingZerosValue | classes/Poster.py:170-171 | leading zeros do not change the value of a digit string |
| Formats.PaddedDecimalRoundTrip | classes/Poster.py:170-171 | the zero-padded file number parses back to the number |
| Formats.PaddedDecimalWidth | classes/Poster.py:170-171 | a file number no larger than the file count is padded to exactly the width of the file count, all digits |
| Formats.ZeroPadDigits | classes/Poster.py:170-171 | padding a digit string yields a digit string of exactly the requested width |
| Formats.PaddedDecimal | classes/Poster.py:170-171 | `%0Nd` yields only digits, exactly `N` of them unless the number needs more |
| Formats.Mask32 | classes/Poster.py:237 | `& 2**32 - 1` yields the value modulo 2^32, which is the value itself for a non-negative 32-bit CRC and the value plus 2^32 for a negative one |
| Formats.HexChar | classes/Poster.py:237 | a nibble renders as a lowercase hex digit |
| Formats.HexDigits | classes/Poster.py:237 | `k` nibbles render as exactly `k` lowercase hex digits |
| Formats.ParseHex8 | classes/Poster.py:237-238 | a string parses as a CRC exactly when it is eight lowercase hex digits |
| Formats.HexDigitsRoundTrip | classes/Poster.py:237 | `k` hex digits of a value below 16^k read back as the value |
| Formats.Hex8RoundTrip | classes/Poster.py:237-238 | `%08x` of a 32-bit value parses back to the value |
| Formats.Hex8 | classes/Poster.py:237 | `%08x` yields exactly eight lowercase hex digits |
| Formats.Escape | classes/Poster.py:172-174 | a string without `%` is its own escaped form |
| Formats.InterpolateLiteral | classes/Poster.py:216 | `%`-free text before the slot comes through interpolation unchanged |
| Formats.InterpolateEscaped | classes/Poster.py:172-216 | an escaped string comes back unchanged from interpolation, whatever it contains |
| Formats.InterpolateSlot | classes/Poster.py:216 | the first `%s` takes the argument, and the rest of the template is read with the argument used |
| Formats.Interpolate | classes/Poster.py:216 | Python's `template % arg` for one argument; `InterpolateSlot` proves the first `%s` takes the argument, `InterpolateLiteral` and `InterpolateEscaped` that `%`-free and escaped text come back unchanged |
| Names.NameLeReflexive | classes/Poster.py:156 | every name sorts no later than itself |
| Names.NameLeTotal | classes/Poster.py:156 | any two names are ordered one way or the other |
| Names.NameLeTransitive | classes/Poster.py:156 | the name order is transitive |
| Names.NameLeAntisymmetric | classes/Poster.py:156 | two names ordered both ways are equal |
| Names.NameLe | classes/Poster.py:156 | the order `files.sort()` uses; the four lemmas above prove it a total order |
| Envelope.StripPrefix | classes/Poster.py:210-238 | a prefix is stripped exactly when the line starts with it, and the line is the prefix followed by the remainder |
| Envelope.StripPrefixOf | classes/Poster.py:210-238 | a prefix written in front of a text strips off again |
| Envelope.StripCrlf | classes/Poster.py:210-238 | a line end is stripped exactly when the line ends in `\r\n` |
| Envelope.StripCrlfOf | classes/Poster.py:210-238 | a `\r\n` written after a text strips off again |
| Envelope.SpanDigits | classes/Poster.py:226-238 | a line splits into its leading digits and a remainder that does not start with a digit |
| Envelope.SpanDigitsOf | classes/Poster.py:226-238 | digits followed by a non-digit split exactly there |
| Envelope.FieldOf | classes/Poster.py:226-238 | a `key=%d` field followed by a non-digit reads back as its number and the remainder |
| Envelope.YBeginLine | classes/Poster.py:226-228 | the `=ybegin` line ends in `\r\n` |
| Envelope.YPartLine | classes/Poster.py:230 | the `=ypart` line ends in `\r\n` |
| Envelope.YEndLine | classes/Poster.py:237-238 | the `=yend` line ends in `\r\n` |
| Envelope.YBeginRoundTrip | classes/Poster.py:226-228 | `=ybegin part total line=256 size name` reads back as the part, total, size and name written |
| Envelope.YPartRoundTrip | classes/Poster.py:230 | `=ypart begin end` reads back as the window written |
| Envelope.YEndRoundTrip | classes/Poster.py:237-238 | `=yend size part pcrc32` reads back as the size, the part and the CRC masked to 32 bits |
| Envelope.HeaderLine | classes/Poster.py:210-219 | every header line ends in `\r\n` |
| Envelope.HeaderRoundTrip | classes/Poster.py:210-219 | a header line reads back as the value written under its key |
| Envelope.ArticleLines | classes/Poster.py:209-242 | an article has eleven lines, the encoded body the ninth |
| Envelope.ArticleFraming | classes/Poster.py:209-242 | the lines are, in order, the five headers with their values, the blank line, `=ybegin`, `=ypart` and `=yend` with their values, and the end-of-data line |
| Envelope.HeadersFraming | classes/Poster.py:210-220 | the first five lines read back as `From`, `Newsgroups`, `Date` (with ` UTC`), `Subject` and `X-Newsposter` |
| Envelope.YencFraming | classes/Poster.py:225-242 | lines seven to eleven read back as the yEnc values and end with the end-of-data line |
| Envelope.YBeginFraming | classes/Poster.py:226-229 | the seventh line reads back as the `=ybegin` values |
| Envelope.YPartFraming | classes/Poster.py:230-231 | the eighth line reads back as the window |
| Envelope.YEndFraming | classes/Poster.py:237-242 | the tenth line reads back as the byte count, the part and the masked CRC |
| Envelope.ArticleTerminated | classes/Poster.py:238-242 | the text ends in `\r\n.\r\n`, as RFC 3977 requires of a multi-line block |
| Envelope.ArticleTextTerminated | classes/Poster.py:209-242 | the text of every article ends in `\r\n.\r\n` |
| Builder.Read | classes/Poster.py:200-202 | a read leaves the bytes unchanged, returns at most the bytes asked for, advances the cursor by exactly the bytes returned, and from a cursor inside the file returns exactly the file's bytes between the old and the new cursor |
| Builder.ReadPart | classes/Poster.py:195-207 | the read fails exactly when the path is neither open nor openable; `begin` is the open handle's offset (0 when just opened), `end - begin` is the bytes read, at most `article_size`; the handle is dropped exactly on the last part and otherwise kept at `end`; other paths are untouched |
| Builder.ReadPartContent | classes/Poster.py:195-207 | a chunk that starts inside the file holds exactly the file's bytes between its bounds, and a handle kept open still holds the file's bytes |
| Builder.ReadParts | classes/Poster.py:195-207 | building a sequence of articles yields one chunk per article |
| Builder.ReadPartsAppend | classes/Poster.py:195-207 | reading two queues one after the other is reading their concatenation |
| Builder.ReadPartsCons | classes/Poster.py:195-207 | reading a queue is reading its head, then the rest from the registry the head leaves |
| Builder.ReadPartsConsPrefix | classes/Poster.py:195-207 | the same for a prefix of the queue |
| Builder.Windows | classes/Poster.py:200-202 | the first `n` windows of a file, in order |
| Builder.Window | classes/Poster.py:200-202 | window `i` lies inside the file, holds at most `article_size` bytes, and holds exactly the file's bytes between its bounds |
| Builder.WindowsCover | classes/Poster.py:200-202 | the first `k` windows together hold the file's bytes up to offset `k*a` |
| Builder.WindowsAdjacent | classes/Poster.py:200-202 | each window begins where the previous one ends |
| Builder.WindowShape | classes/Poster.py:200-202 | a window of a non-empty file is non-empty and holds at most `article_size` bytes |
| Builder.WindowsPartitionAt | classes/Poster.py:200-202 | when the last window starts inside the file and ends at or beyond its end, the windows partition the file |
| Builder.WindowsPartition | classes/Poster.py:163-202 | the `parts` windows of a non-empty file start at 0, are adjacent, non-empty, at most `article_size` bytes each, end at the file size and together hold the file |
| Builder.ReadNextPart | classes/Poster.py:195-207 | reading part `j` of a file, after parts `1..j-1`, yields window `j-1` and leaves the handle open at its end, or closed after the last part |
| Builder.ReadLastPart | classes/Poster.py:204-207 | the last part reads the last window and removes the handle |
| Builder.ReadInnerPart | classes/Poster.py:196-202 | an earlier part reads its window and leaves the handle at the window's end |
| Builder.FilePartsRead | classes/Poster.py:192-207 | reading a file's first `j` parts from a registry without it yields its first `j` windows, and after all parts the registry is as before |
| Builder.FileReadsAsWindows | classes/Poster.py:184-202 | the k-th article of a file stands for window `k` of it |
| Builder.ReadsAsWindowsAppend | classes/Poster.py:186 | window correspondence of two queues carries over to their concatenation |
| Builder.AppendFileReads | classes/Poster.py:184-207 | appending a file's articles to a queue that reads as its windows keeps it so |
| Builder.AllOnDiskSplit | classes/Poster.py:196-198 | files openable for a whole queue are openable for each half |
| Builder.AppendBlockReads | classes/Poster.py:159-188 | appending a file's block keeps the queue reading as windows |
| Builder.FilesArticlesReadStep | classes/Poster.py:159-188 | the same, one file further |
| Builder.FilesArticlesRead | classes/Poster.py:159-188 | a directory's articles, appended to a queue that reads as windows, keep it so |
| Builder.QueueReadsAppend | classes/Poster.py:140-186 | concatenating queues that read as windows yields one that does |
| Builder.DirScheduleReads | classes/Poster.py:140-188 | a directory's articles read, part by part, as their files' windows, when its files can be opened |
| Builder.ScanReadsBy | classes/Poster.py:140-188 | the scan's queue reads as windows whenever each directory's contribution does |
| Builder.ScanReads | classes/Poster.py:140-207 | the whole queue the scheduler builds reads, part by part, as its files' windows |
| Builder.Render | classes/Poster.py:209-242 | rendering fails exactly when the subject template cannot take the part number |
| Builder.Build | classes/Poster.py:192-244 | a file neither open nor openable raises before anything changes; otherwise the article renders exactly when its template takes the part number |
| Builder.BuildScheduled | classes/Poster.py:192-244 | a well-formed article whose file can be opened renders: its subject is the template filled with the part number; `=ybegin`, `=ypart` and `=yend` carry the part, total, size, name, window, byte count and masked CRC of its chunk; the ninth line is the encoded chunk |
| Posting.Due | classes/Poster.py:109-111 | the sweep reconnects at most every connection |
| Posting.DueExactly | classes/Poster.py:109-111 | a connection is reconnected exactly when it is disconnected and `now >= reconnect_at` |
| Posting.DueIncreasing | classes/Poster.py:109-111 | the sweep visits connections in list order, each at most once |
| Posting.DrainPairs | classes/Poster.py:114-120 | the k-th post goes to the k-th idle connection; both lists lose exactly the pairs taken; without an error `min(len(idle), len(articles))` are taken |
| Posting.PairedCons | classes/Poster.py:114-120 | one more pair in front keeps the pairing |
| Posting.DrainReads | classes/Poster.py:114-120 | the k-th post carries the text rendered around the chunk that reading the first `k+1` articles gives the k-th, and the registry is the one those reads leave |
| Posting.PostsReadCons | classes/Poster.py:114-120 | the same, one article further |
| Posting.ReadAsCons | classes/Poster.py:114-120 | the same, stated on the dispatch result |
| Posting.DrainSucceeds | classes/Poster.py:114-120 | a dispatch whose articles all have openable files and fillable templates raises no error |
| Posting.Drain | classes/Poster.py:114-120 | the dispatch loop; `DrainPairs` proves the k-th post goes to the k-th idle connection and both lists lose exactly the pairs taken, `DrainReads` that the k-th post carries the k-th chunk of one run of reads, `DrainResume` that a later round continues that run |
| Posting.ReadAsResume | classes/Poster.py:106-129 | when a second round drains what a first left, the two rounds' posts carry the chunks of one run of reads over all the articles taken, each post rendered with its own round's date |
| Posting.DrainResume | classes/Poster.py:106-129 | two dispatch rounds, the second on the queue and registry the first leaves and with whatever connections are idle by then, take a prefix of the queue and post what one run of reads over that prefix gives |
| Posting.RenderedWindow | classes/Poster.py:230-234 | a post rendered around a chunk has eleven lines, reads back as the chunk's window and carries the chunk's encoding |
| Posting.WindowsPosted | classes/Poster.py:114-120 | posts that pair with a queue reading as windows carry those windows |
| Posting.QueueDrainsCleanly | classes/Poster.py:114-120 | draining a well-formed queue that reads as windows, from an empty registry, raises nothing |
| Posting.QueuePostsWindows | classes/Poster.py:114-120 | with enough idle connections, such a queue drains completely: the k-th post is on the k-th connection, reads back as window `partnum-1` of its file and carries that window's encoding, and the registry ends empty |
| Posting.ScanPostsWindows | classes/Poster.py:114-244 | the same for the queue the scheduler builds from the directories, when its files can be opened |
| Posting.Poster.constructor | classes/Poster.py:51-66 | a new poster has an empty queue, idle list and registry |
| Posting.Poster.GenerateArticleList | classes/Poster.py:139-188 | the queue grows by exactly the scan's articles, and the directory that failed is reported |
| Posting.Poster.ScanDirectory | classes/Poster.py:140-188 | one iteration of the loop over directories appends that directory's articles or stops the scan |
| Posting.Poster.AppendDirectory | classes/Poster.py:141-159 | a directory appends exactly its files' articles, or nothing when it cannot be listed |
| Posting.Poster.KeepPostable | classes/Poster.py:150-155 | the loop over the listing keeps exactly the filter's entries, in listing order |
| Posting.Poster.AppendFiles | classes/Poster.py:158-188 | the loop over sorted files appends exactly their blocks |
| Posting.Poster.CountParts | classes/Poster.py:163-167 | `divmod` and the remainder test compute the part count |
| Posting.Poster.AppendParts | classes/Poster.py:184-186 | the loop over parts appends parts `1..parts` of the file, in order |
| Posting.Poster.BuildArticle | classes/Poster.py:192-244 | the registry and the text are those of `Build` |
| Posting.Poster.ReadChunk | classes/Poster.py:195-207 | the registry and the chunk are those of `ReadPart`; on an open error nothing changes |
| Posting.Poster.WriteArticle | classes/Poster.py:209-242 | the text written line by line is `Render`'s |
| Posting.Poster.Reconnect | classes/Poster.py:109-111 | `do_connect` is called on exactly the due connections, in list order |
| Posting.Poster.Dispatch | classes/Poster.py:114-120 | the idle list, queue, registry and posts are those of `Drain`, and the queue stays FIFO |
| Posting.Poster.PostNext | classes/Poster.py:115-120 | the heads of the idle list and the queue are popped together, the article is built, and it is posted on that connection when the build succeeds |
| Posting.Poster.BecomeIdle | classes/Poster.py:114-115 | a connection joins the back of the idle list |
| Posting.Poster.Start | classes/Poster.py:71-85 | the queue is generated, then connections `0..connections-1` are connected in order and the reconnect clock starts |
| Posting.Poster.Step | classes/Poster.py:106-129 | the reconnect sweep runs exactly when a second has passed since the last one; the dispatch is `Drain`'s; the loop is done exactly when nothing failed, the queue is empty and every connection is idle, and then every article queued has been taken |
| Posting.Poster.Done | classes/Poster.py:123 | the loop's exit test: the queue is empty and every configured connection is idle; `Step` proves every queued article has then been taken |

## Left out

- The `select.poll` readiness dispatch (lines 69, 93-104) is socket I/O
  against a process-wide poller.
- The asyncNNTP connection class is not part of this model. A connection
  is reduced to the two fields the loop reads: whether it is
  disconnected, and its `reconnect_at`. `do_connect` and `post_article`
  are recorded in `connects` and `posted`. A connection re-joins the
  idle list through `BecomeIdle`, which that class calls.
- The yEnc body encoder and `zlib.crc32` are functions of the `Codec`
  the poster is given. Only the 32-bit mask and the eight-hex-digit
  rendering of the CRC are modelled.
- `time.strftime(..., time.gmtime())` becomes the `date` parameter of a
  dispatch. Every article of one dispatch carries the same date, where
  the code reads the clock once per article.
- The clock is the `now` parameter of `Start` and `Step`. `time.sleep`,
  the byte count, the throughput figure and all logging (lines 56-61,
  87-91, 124-127, 131) are left out.
- `os.listdir`, `os.path.isfile`, `os.path.getsize` and `open` become
  data: `Listings` maps a directory name to its entries, and `Disk` maps
  a path to the file's bytes. Files do not change while the program
  runs. An `os.listdir` that raises becomes the reported failed
  directory, and an `open` that raises becomes `CannotOpen`.
- Lines 133-135 come after an endless loop and cannot run.
- Posting.Poster.constructor: requires `article_size > 0`. In the code a zero
  size raises only at the `divmod` of line 163, once a non-empty regular
  file is scheduled, and a negative size queues nothing; the model simply
  requires a positive size.
- Scheduler.FileBlock: queues the corrected template, with the names' `%`
  escaped, not the template as written. `ScanScheduled`,
  `ScanPostsWindows` and the claims above about templates and dispatch
  therefore describe the corrected program; `SubjectTemplateUnescaped`
  shows the two agree whenever the names hold no `%`.
- Formats.Interpolate models only `%%`, `%s` and `%d`. Any other
  conversion, including the `%0Nd` inside the template, is an error
  there; the padding is modelled separately by `PaddedDecimal`.
- Names.NameLe is Python 2's byte-string order on the names' code
  points. No locale is involved.
- The reconnect sweep's `Step` takes the connection states as a snapshot
  parameter. Reconnection is fire-and-forget, and its effect is observed
  only through a later snapshot.
- The trimming of directory names follows the code: exactly one
  trailing separator is dropped, so `a//` becomes `a/`.
- `os.sep` is taken to be `/`, and `os.path.join` is modelled as on a
  POSIX system.
- The `=ypart begin` value follows the code: it is the 0-based
  `f.tell()` before the read, where yEnc 1.3 counts from 1.

## Findings

| source | as written | input that shows it | evidently intended | confidence | as-written member | corrected member |
|---|---|---|---|---|---|---|
| classes/Poster.py:172-216 | the directory and file names are copied verbatim into a template that is later `%`-formatted with the part number | a file named `x%s`: the template holds two `%s` slots for one argument, and `subject % partnum` raises | names copied with `%` escaped as `%%`, so the template has one slot and the names come back unchanged | not executed | Scheduler.SubjectTemplateAsWrittenBreaks | Scheduler.SubjectTemplateFills |
