/**
  The article builder: what `build_article` does to the registry of open
  files, which bytes each part reads, and the text it renders around them.
  A handle is modelled as the file's bytes and a read cursor; the registry
  maps a path to the handle opened for it.
*/
module Builder {
  import opened Results
  import opened Formats
  import opened Scheduler
  import opened Envelope

  type byte = b: int | 0 <= b < 256

  /** An open file: its bytes and the position `f.tell()` reports. */
  datatype Handle = Handle(content: seq<byte>, offset: nat)

  /** `self._files`: path -> open handle. */
  type Registry = map<string, Handle>

  /** The bytes of each file `open(path, 'rb')` can open. */
  type Disk = map<string, seq<byte>>

  /** The window `begin`/`end` around one read, and the bytes read. */
  datatype Chunk = Chunk(begin: nat, end: nat, data: seq<byte>)

  /**
    Why `build_article` raised: `open` failed (the file vanished after the
    scan), or `subject % partnum` failed on a malformed template.
  */
  datatype BuildError = CannotOpen(path: string) | BadSubject(error: FormatError)

  /** The two collaborators the text depends on: `yEnc.yEncode` and `zlib.crc32`. */
  datatype Codec = Codec(encode: seq<byte> -> string, crc32: seq<byte> -> int)

  /** The registry after one `build_article`, and the article text or the error it raised. */
  datatype Outcome = Outcome(registry: Registry, text: Result<seq<string>, BuildError>)

  /** The registry after building one article, and the chunk the article carries. */
  datatype Built = Built(registry: Registry, chunk: Chunk)

  /** The registry after building a run of articles, and their chunks in order. */
  datatype Trace = Trace(registry: Registry, chunks: seq<Chunk>)

  function Min(a: int, b: int): int
  {
    if a <= b then a else b
  }

  /** `f.read(n)`: up to n bytes from the cursor on, moving the cursor past them; nothing at end of file. */
  function Read(h: Handle, n: nat): (r: (Handle, seq<byte>))
    ensures r.0.content == h.content && r.0.offset == h.offset + |r.1| && |r.1| <= n
    ensures h.offset <= |h.content| ==> r.0.offset <= |h.content| && r.1 == h.content[h.offset..r.0.offset]
  {
    if h.offset >= |h.content| then (h, [])
    else
      var end := Min(h.offset + n, |h.content|);
      (Handle(h.content, end), h.content[h.offset..end])
  }

  /**
    The file side of `build_article`: look the path up, opening it when it
    is not registered; read one article's worth; and close and forget the
    handle when this was the file's last part.
  */
  function ReadPart(files: Registry, disk: Disk, art: Article, articleSize: nat): (r: Result<Built, BuildError>)
    ensures r.Err? <==> art.info.filepath !in files && art.info.filepath !in disk
    ensures r.Ok? ==>
      var path, c, after := art.info.filepath, r.value.chunk, r.value.registry;
      && c.begin == (if path in files then files[path].offset else 0)
      && c.end == c.begin + |c.data| && |c.data| <= articleSize
      && (art.partnum == art.info.parts ==> path !in after)
      && (art.partnum != art.info.parts ==> path in after && after[path].offset == c.end)
      && (forall p :: p != path ==> (p in after <==> p in files))
      && (forall p :: p != path && p in files ==> after[p] == files[p])
  {
    var path := art.info.filepath;
    if path !in files && path !in disk then Err(CannotOpen(path))
    else
      var h := if path in files then files[path] else Handle(disk[path], 0);
      var (h', data) := Read(h, articleSize);
      var after := if art.partnum == art.info.parts then files - {path} else files[path := h'];
      Ok(Built(after, Chunk(h.offset, h'.offset, data)))
  }

  /**
    The bytes of a part are the file's own bytes between `begin` and
    `end`, and a handle kept for the next part still reads the same file.
  */
  lemma ReadPartContent(files: Registry, disk: Disk, art: Article, articleSize: nat)
    requires ReadPart(files, disk, art, articleSize).Ok?
    ensures var path, b := art.info.filepath, ReadPart(files, disk, art, articleSize).value;
      var content := if path in files then files[path].content else disk[path];
      && (b.chunk.begin <= |content| ==> b.chunk.end <= |content| && b.chunk.data == content[b.chunk.begin..b.chunk.end])
      && (art.partnum != art.info.parts ==> b.registry[path].content == content)
  {
    var path := art.info.filepath;
    var h := if path in files then files[path] else Handle(disk[path], 0);
    var (h', data) := Read(h, articleSize);
    assert ReadPart(files, disk, art, articleSize).value.chunk == Chunk(h.offset, h'.offset, data);
  }

  /** Building a run of articles in queue order, stopping at the first that fails. */
  function ReadParts(files: Registry, disk: Disk, arts: seq<Article>, articleSize: nat): (r: Result<Trace, BuildError>)
    ensures r.Ok? ==> |r.value.chunks| == |arts|
  {
    if arts == [] then Ok(Trace(files, []))
    else match ReadParts(files, disk, arts[..|arts| - 1], articleSize)
      case Err(e) => Err(e)
      case Ok(t) =>
        match ReadPart(t.registry, disk, arts[|arts| - 1], articleSize)
        case Err(e) => Err(e)
        case Ok(b) => Ok(Trace(b.registry, t.chunks + [b.chunk]))
  }

  /** Building two runs one after the other is building their concatenation. */
  lemma {:induction false} ReadPartsAppend(files: Registry, disk: Disk, q1: seq<Article>, q2: seq<Article>, articleSize: nat)
    requires ReadParts(files, disk, q1, articleSize).Ok?
    ensures var t1 := ReadParts(files, disk, q1, articleSize).value;
      ReadParts(files, disk, q1 + q2, articleSize)
      == match ReadParts(t1.registry, disk, q2, articleSize)
         case Err(e) => Err(e)
         case Ok(t2) => Ok(Trace(t2.registry, t1.chunks + t2.chunks))
    decreases |q2|
  {
    var t1 := ReadParts(files, disk, q1, articleSize).value;
    if q2 == [] {
      assert q1 + q2 == q1;
      assert t1.chunks + [] == t1.chunks;
    } else {
      var q2' := q2[..|q2| - 1];
      assert (q1 + q2)[..|q1 + q2| - 1] == q1 + q2';
      assert (q1 + q2)[|q1 + q2| - 1] == q2[|q2| - 1];
      ReadPartsAppend(files, disk, q1, q2', articleSize);
      match ReadParts(t1.registry, disk, q2', articleSize)
      case Err(e) =>
      case Ok(t2) =>
        match ReadPart(t2.registry, disk, q2[|q2| - 1], articleSize)
        case Err(e) =>
        case Ok(b) =>
          assert t1.chunks + t2.chunks + [b.chunk] == t1.chunks + (t2.chunks + [b.chunk]);
    }
  }

  /** Building one article and then a run is building the run with that article in front. */
  lemma ReadPartsCons(files: Registry, disk: Disk, art: Article, rest: seq<Article>, articleSize: nat)
    requires ReadPart(files, disk, art, articleSize).Ok?
    requires ReadParts(ReadPart(files, disk, art, articleSize).value.registry, disk, rest, articleSize).Ok?
    ensures var b := ReadPart(files, disk, art, articleSize).value;
      var t := ReadParts(b.registry, disk, rest, articleSize).value;
      ReadParts(files, disk, [art] + rest, articleSize) == Ok(Trace(t.registry, [b.chunk] + t.chunks))
  {
    var b := ReadPart(files, disk, art, articleSize).value;
    assert [art][..0] == [];
    assert ReadParts(files, disk, [], articleSize) == Ok(Trace(files, []));
    assert [] + [b.chunk] == [b.chunk];
    assert ReadParts(files, disk, [art], articleSize) == Ok(Trace(b.registry, [b.chunk]));
    ReadPartsAppend(files, disk, [art], rest, articleSize);
  }

  /** Building the first n + 1 articles is building the first, then the next n. */
  lemma ReadPartsConsPrefix(files: Registry, disk: Disk, arts: seq<Article>, n: nat, articleSize: nat)
    requires n < |arts| && ReadPart(files, disk, arts[0], articleSize).Ok?
    requires ReadParts(ReadPart(files, disk, arts[0], articleSize).value.registry, disk, arts[1..][..n], articleSize).Ok?
    ensures var b := ReadPart(files, disk, arts[0], articleSize).value;
      var t := ReadParts(b.registry, disk, arts[1..][..n], articleSize).value;
      ReadParts(files, disk, arts[..n + 1], articleSize) == Ok(Trace(t.registry, [b.chunk] + t.chunks))
  {
    ReadPartsCons(files, disk, arts[0], arts[1..][..n], articleSize);
    TakeCons(arts, n);
  }

  // ---------------------------------------------------------------------
  // Byte windows

  /** The bytes part i + 1 of a file should carry: [i * size, (i + 1) * size), cut at the end of the file. */
  function Window(content: seq<byte>, articleSize: nat, i: nat): (w: Chunk)
    ensures w.begin <= w.end <= |content| && w.end - w.begin <= articleSize
    ensures w.data == content[w.begin..w.end]
  {
    var lo := Min(Offset(i, articleSize), |content|);
    var hi := Min(Offset(i, articleSize) + articleSize, |content|);
    Chunk(lo, hi, content[lo..hi])
  }

  function Windows(content: seq<byte>, articleSize: nat, n: nat): (r: seq<Chunk>)
    ensures |r| == n && forall i :: 0 <= i < n ==> r[i] == Window(content, articleSize, i)
  {
    seq(n, i requires 0 <= i < n => Window(content, articleSize, i))
  }

  /** The bytes of a run of chunks, one after the other. */
  function ConcatData(chunks: seq<Chunk>): seq<byte>
  {
    if chunks == [] then [] else ConcatData(chunks[..|chunks| - 1]) + chunks[|chunks| - 1].data
  }

  lemma SliceJoin<T>(s: seq<T>, lo: nat, hi: nat)
    requires lo <= hi <= |s|
    ensures s[..lo] + s[lo..hi] == s[..hi]
  {
  }

  /** The first k windows hold exactly the first k * articleSize bytes of the file. */
  lemma {:induction false} WindowsCover(content: seq<byte>, articleSize: nat, k: nat)
    ensures ConcatData(Windows(content, articleSize, k)) == content[..Min(Offset(k, articleSize), |content|)]
  {
    if k > 0 {
      var w := Windows(content, articleSize, k);
      assert w[..k - 1] == Windows(content, articleSize, k - 1);
      assert ConcatData(w) == ConcatData(w[..k - 1]) + w[k - 1].data;
      WindowsCover(content, articleSize, k - 1);
      var lo := Min(Offset(k - 1, articleSize), |content|);
      var hi := Min(Offset(k, articleSize), |content|);
      assert Offset(k, articleSize) == Offset(k - 1, articleSize) + articleSize;
      assert w[k - 1] == Chunk(lo, hi, content[lo..hi]);
      SliceJoin(content, lo, hi);
    }
  }

  /** Window i starts where window i - 1 ends. */
  lemma WindowsAdjacent(content: seq<byte>, articleSize: nat, i: nat)
    requires i > 0
    ensures Window(content, articleSize, i).begin == Window(content, articleSize, i - 1).end
  {
    assert Offset(i, articleSize) == Offset(i - 1, articleSize) + articleSize;
  }

  /** A window that starts inside the file is non-empty and no longer than the article size. */
  lemma WindowShape(content: seq<byte>, articleSize: nat, i: nat, last: nat)
    requires articleSize > 0 && i <= last && Offset(last, articleSize) < |content|
    ensures var w := Window(content, articleSize, i);
      0 < w.end - w.begin == |w.data| <= articleSize
  {
    OffsetMonotone(i, last, articleSize);
    assert Window(content, articleSize, i).begin == Offset(i, articleSize);
  }

  /**
    Chunks `w` partition `content`: the first starts at 0, each starts
    where the one before ended, none is empty or longer than the article
    size, the last ends at the end of the content, and together they hold
    its bytes in order.
  */
  predicate Partition(w: seq<Chunk>, content: seq<byte>, articleSize: nat)
  {
    && |w| > 0
    && w[0].begin == 0
    && (forall i :: 0 < i < |w| ==> w[i].begin == w[i - 1].end)
    && (forall i :: 0 <= i < |w| ==> 0 < w[i].end - w[i].begin == |w[i].data| <= articleSize)
    && w[|w| - 1].end == |content|
    && ConcatData(w) == content
  }

  /** Any number of windows whose last one starts inside the file and ends at or past its end partitions it. */
  lemma WindowsPartitionAt(content: seq<byte>, articleSize: nat, parts: nat)
    requires articleSize > 0 && parts > 0
    requires Offset(parts - 1, articleSize) < |content| <= Offset(parts, articleSize)
    ensures Partition(Windows(content, articleSize, parts), content, articleSize)
  {
    var w := Windows(content, articleSize, parts);
    assert w[0] == Window(content, articleSize, 0);
    forall i | 0 < i < |w| ensures w[i].begin == w[i - 1].end {
      WindowsAdjacent(content, articleSize, i);
    }
    forall i | 0 <= i < |w| ensures 0 < w[i].end - w[i].begin == |w[i].data| <= articleSize {
      WindowShape(content, articleSize, i, parts - 1);
    }
    assert Offset(parts, articleSize) == Offset(parts - 1, articleSize) + articleSize;
    assert w[parts - 1] == Window(content, articleSize, parts - 1);
    WindowsCover(content, articleSize, parts);
    assert content[..|content|] == content;
  }

  /** The windows of a non-empty file's parts partition it. */
  lemma WindowsPartition(content: seq<byte>, articleSize: nat)
    requires articleSize > 0 && |content| > 0
    ensures Partition(Windows(content, articleSize, PartCount(|content|, articleSize)), content, articleSize)
  {
    PartCountOffsets(|content|, articleSize);
    WindowsPartitionAt(content, articleSize, PartCount(|content|, articleSize));
  }

  /** Whether the registry and the disk agree on a file's bytes as the scan saw them. */
  predicate OnDisk(disk: Disk, info: FileInfo)
  {
    info.filepath in disk && |disk[info.filepath]| == info.filesize
  }

  /** The registry while a file is being built: its handle registered after part j, gone once all parts are. */
  function RegistryAfter(files: Registry, disk: Disk, info: FileInfo, articleSize: nat, j: nat): Registry
    requires info.filepath in disk
  {
    if j == 0 || j == info.parts then files
    else files[info.filepath := Handle(disk[info.filepath], Offset(j, articleSize))]
  }

  /** Part j of a file reads window j - 1 and moves the registry on by one part. */
  lemma ReadNextPart(files: Registry, disk: Disk, info: FileInfo, subject: string, articleSize: nat, j: nat)
    requires articleSize > 0 && info.filesize > 0 && info.parts == PartCount(info.filesize, articleSize)
    requires OnDisk(disk, info) && info.filepath !in files
    requires 1 <= j <= info.parts
    ensures ReadPart(RegistryAfter(files, disk, info, articleSize, j - 1), disk, Article(info, subject, j), articleSize)
         == Ok(Built(RegistryAfter(files, disk, info, articleSize, j), Window(disk[info.filepath], articleSize, j - 1)))
  {
    if j == info.parts {
      ReadLastPart(files, disk, info, subject, articleSize, j);
    } else {
      ReadInnerPart(files, disk, info, subject, articleSize, j);
    }
  }

  /** The last part of a file reads the last window and closes the file. */
  lemma ReadLastPart(files: Registry, disk: Disk, info: FileInfo, subject: string, articleSize: nat, j: nat)
    requires articleSize > 0 && info.filesize > 0 && info.parts == PartCount(info.filesize, articleSize)
    requires OnDisk(disk, info) && info.filepath !in files
    requires 1 <= j == info.parts
    ensures ReadPart(RegistryAfter(files, disk, info, articleSize, j - 1), disk, Article(info, subject, j), articleSize)
         == Ok(Built(RegistryAfter(files, disk, info, articleSize, j), Window(disk[info.filepath], articleSize, j - 1)))
  {
    var path, content := info.filepath, disk[info.filepath];
    PartCountOffsets(info.filesize, articleSize);
    var before := RegistryAfter(files, disk, info, articleSize, j - 1);
    var b := ReadPart(before, disk, Article(info, subject, j), articleSize).value;
    assert b.chunk == Window(content, articleSize, j - 1);
    assert b.registry == files;
  }

  /** A part before the last reads its window and leaves the handle at the next window. */
  lemma ReadInnerPart(files: Registry, disk: Disk, info: FileInfo, subject: string, articleSize: nat, j: nat)
    requires articleSize > 0 && info.filesize > 0 && info.parts == PartCount(info.filesize, articleSize)
    requires OnDisk(disk, info) && info.filepath !in files
    requires 1 <= j < info.parts
    ensures ReadPart(RegistryAfter(files, disk, info, articleSize, j - 1), disk, Article(info, subject, j), articleSize)
         == Ok(Built(RegistryAfter(files, disk, info, articleSize, j), Window(disk[info.filepath], articleSize, j - 1)))
  {
    var path, content := info.filepath, disk[info.filepath];
    PartCountOffsets(info.filesize, articleSize);
    OffsetMonotone(j - 1, info.parts - 1, articleSize);
    OffsetMonotone(j, info.parts - 1, articleSize);
    var before := RegistryAfter(files, disk, info, articleSize, j - 1);
    var b := ReadPart(before, disk, Article(info, subject, j), articleSize).value;
    assert b.chunk == Window(content, articleSize, j - 1);
    assert b.registry == files[path := Handle(content, Offset(j, articleSize))];
  }

  /**
    Building parts 1..j of a file whose path is not open: the file is opened
    once, by part 1; part i + 1 reads window i; the handle stays registered,
    its cursor at the end of the last window, until part `parts`, which
    closes it and leaves the registry as it was.
  */
  lemma {:induction false} FilePartsRead(files: Registry, disk: Disk, info: FileInfo, subject: string, articleSize: nat, j: nat)
    requires articleSize > 0 && info.filesize > 0 && info.parts == PartCount(info.filesize, articleSize)
    requires OnDisk(disk, info) && info.filepath !in files
    requires j <= info.parts
    ensures ReadParts(files, disk, FileArticles(info, subject)[..j], articleSize)
         == Ok(Trace(RegistryAfter(files, disk, info, articleSize, j), Windows(disk[info.filepath], articleSize, j)))
  {
    var arts := FileArticles(info, subject)[..j];
    if j == 0 {
      assert arts == [];
      assert Windows(disk[info.filepath], articleSize, 0) == [];
    } else {
      assert arts[..j - 1] == FileArticles(info, subject)[..j - 1];
      assert arts[j - 1] == Article(info, subject, j);
      FilePartsRead(files, disk, info, subject, articleSize, j - 1);
      ReadNextPart(files, disk, info, subject, articleSize, j);
      var content := disk[info.filepath];
      assert Windows(content, articleSize, j - 1) + [Window(content, articleSize, j - 1)] == Windows(content, articleSize, j);
    }
  }

  // ---------------------------------------------------------------------
  // The whole queue

  /** Every article of the queue names a file that is on disk with the size the scan saw. */
  predicate AllOnDisk(q: seq<Article>, disk: Disk)
  {
    forall i :: 0 <= i < |q| ==> OnDisk(disk, q[i].info)
  }

  /** Chunk i is the window of part q[i].partnum of q[i]'s file. */
  predicate ReadsAsWindows(q: seq<Article>, chunks: seq<Chunk>, disk: Disk, articleSize: nat)
  {
    && |chunks| == |q|
    && forall i :: 0 <= i < |q| ==> PartReadsAsWindow(q[i], chunks[i], disk, articleSize)
  }

  predicate PartReadsAsWindow(art: Article, chunk: Chunk, disk: Disk, articleSize: nat)
  {
    && art.partnum >= 1 && art.info.filepath in disk
    && chunk == Window(disk[art.info.filepath], articleSize, art.partnum - 1)
  }

  /** Building the queue from an empty registry succeeds, reads every part's window, and closes every file. */
  predicate QueueReads(q: seq<Article>, disk: Disk, articleSize: nat)
  {
    var r := ReadParts(map[], disk, q, articleSize);
    r.Ok? && r.value.registry == map[] && ReadsAsWindows(q, r.value.chunks, disk, articleSize)
  }

  /** The parts of one file, in order, read the file's windows in order. */
  lemma FileReadsAsWindows(info: FileInfo, subject: string, disk: Disk, articleSize: nat)
    requires info.filepath in disk
    ensures ReadsAsWindows(FileArticles(info, subject), Windows(disk[info.filepath], articleSize, info.parts), disk, articleSize)
  {
    var q, w := FileArticles(info, subject), Windows(disk[info.filepath], articleSize, info.parts);
    forall i | 0 <= i < |q|
      ensures PartReadsAsWindow(q[i], w[i], disk, articleSize)
    {
      assert q[i] == Article(info, subject, i + 1);
    }
  }

  lemma ReadsAsWindowsAppend(q1: seq<Article>, c1: seq<Chunk>, q2: seq<Article>, c2: seq<Chunk>, disk: Disk, articleSize: nat)
    requires ReadsAsWindows(q1, c1, disk, articleSize) && ReadsAsWindows(q2, c2, disk, articleSize)
    ensures ReadsAsWindows(q1 + q2, c1 + c2, disk, articleSize)
  {
    forall i | 0 <= i < |q1 + q2|
      ensures (q1 + q2)[i].partnum >= 1 && (q1 + q2)[i].info.filepath in disk
      ensures (c1 + c2)[i] == Window(disk[(q1 + q2)[i].info.filepath], articleSize, (q1 + q2)[i].partnum - 1)
    {
      if i >= |q1| {
        assert (q1 + q2)[i] == q2[i - |q1|] && (c1 + c2)[i] == c2[i - |q1|];
      } else {
        assert (q1 + q2)[i] == q1[i] && (c1 + c2)[i] == c1[i];
      }
    }
  }

  /** A whole file appended to a queue that reads as windows still reads as windows and closes the file. */
  lemma AppendFileReads(q: seq<Article>, info: FileInfo, subject: string, disk: Disk, articleSize: nat)
    requires articleSize > 0 && QueueReads(q, disk, articleSize)
    requires info.filesize > 0 && info.parts == PartCount(info.filesize, articleSize) && OnDisk(disk, info)
    ensures QueueReads(q + FileArticles(info, subject), disk, articleSize)
  {
    var t := ReadParts(map[], disk, q, articleSize).value;
    var fa := FileArticles(info, subject);
    var w := Windows(disk[info.filepath], articleSize, info.parts);
    ReadPartsAppend(map[], disk, q, fa, articleSize);
    assert fa[..info.parts] == fa;
    FilePartsRead(map[], disk, info, subject, articleSize, info.parts);
    assert RegistryAfter(map[], disk, info, articleSize, info.parts) == map[];
    assert ReadParts(map[], disk, q + fa, articleSize) == Ok(Trace(map[], t.chunks + w));
    FileReadsAsWindows(info, subject, disk, articleSize);
    ReadsAsWindowsAppend(q, t.chunks, fa, w, disk, articleSize);
  }

  lemma TakeCons<T>(s: seq<T>, n: nat)
    requires n < |s|
    ensures s[..n + 1] == [s[0]] + s[1..][..n]
  {
  }

  lemma ConcatAssociative<T>(a: seq<T>, b: seq<T>, c: seq<T>)
    ensures a + (b + c) == a + b + c
  {
  }

  lemma AllOnDiskSplit(q1: seq<Article>, q2: seq<Article>, disk: Disk)
    requires AllOnDisk(q1 + q2, disk)
    ensures AllOnDisk(q1, disk) && AllOnDisk(q2, disk)
  {
    forall i | 0 <= i < |q1| ensures OnDisk(disk, q1[i].info) {
      assert (q1 + q2)[i] == q1[i];
    }
    forall i | 0 <= i < |q2| ensures OnDisk(disk, q2[i].info) {
      assert (q1 + q2)[|q1| + i] == q2[i];
    }
  }

  /** One file's block appended to a queue that reads as windows. */
  lemma AppendBlockReads(q: seq<Article>, dir: string, e: Entry, n: nat, count: nat, disk: Disk, articleSize: nat)
    requires articleSize > 0 && QueueReads(q, disk, articleSize) && e.size > 0
    requires AllOnDisk(FileBlock(dir, e, n, count, articleSize), disk)
    ensures QueueReads(q + FileBlock(dir, e, n, count, articleSize), disk, articleSize)
  {
    var info := InfoFor(dir, e, articleSize);
    var block := FileBlock(dir, e, n, count, articleSize);
    assert block[0].info == info;
    AppendFileReads(q, info, SubjectTemplate(dir, PaddedDecimal(n, |Decimal(count)|), count, e.name, info.parts), disk, articleSize);
  }

  lemma FilesArticlesReadStep(q: seq<Article>, dir: string, files: seq<Entry>, count: nat, disk: Disk, articleSize: nat)
    requires articleSize > 0 && files != [] && files[|files| - 1].size > 0
    requires QueueReads(q + FilesArticles(dir, files[..|files| - 1], count, articleSize), disk, articleSize)
    requires AllOnDisk(FileBlock(dir, files[|files| - 1], |files|, count, articleSize), disk)
    ensures QueueReads(q + FilesArticles(dir, files, count, articleSize), disk, articleSize)
  {
    var n := |files|;
    var front := FilesArticles(dir, files[..n - 1], count, articleSize);
    var block := FileBlock(dir, files[n - 1], n, count, articleSize);
    AppendBlockReads(q + front, dir, files[n - 1], n, count, disk, articleSize);
    assert FilesArticles(dir, files, count, articleSize) == front + block;
    ConcatAssociative(q, front, block);
  }

  lemma {:induction false} FilesArticlesRead(q: seq<Article>, dir: string, files: seq<Entry>, count: nat, disk: Disk, articleSize: nat)
    requires articleSize > 0 && QueueReads(q, disk, articleSize)
    requires forall j :: 0 <= j < |files| ==> files[j].size > 0
    requires AllOnDisk(FilesArticles(dir, files, count, articleSize), disk)
    ensures QueueReads(q + FilesArticles(dir, files, count, articleSize), disk, articleSize)
  {
    if files == [] {
      assert q + [] == q;
    } else {
      var n := |files|;
      AllOnDiskSplit(FilesArticles(dir, files[..n - 1], count, articleSize), FileBlock(dir, files[n - 1], n, count, articleSize), disk);
      FilesArticlesRead(q, dir, files[..n - 1], count, disk, articleSize);
      FilesArticlesReadStep(q, dir, files, count, disk, articleSize);
    }
  }

  /** Two queues that each build cleanly from an empty registry build cleanly one after the other. */
  lemma QueueReadsAppend(q1: seq<Article>, q2: seq<Article>, disk: Disk, articleSize: nat)
    requires QueueReads(q1, disk, articleSize) && QueueReads(q2, disk, articleSize)
    ensures QueueReads(q1 + q2, disk, articleSize)
  {
    var t1 := ReadParts(map[], disk, q1, articleSize).value;
    var t2 := ReadParts(map[], disk, q2, articleSize).value;
    ReadPartsAppend(map[], disk, q1, q2, articleSize);
    assert ReadParts(map[], disk, q1 + q2, articleSize) == Ok(Trace(map[], t1.chunks + t2.chunks));
    ReadsAsWindowsAppend(q1, t1.chunks, q2, t2.chunks, disk, articleSize);
  }

  /** One directory's articles build cleanly on their own. */
  lemma DirScheduleReads(d: string, fs: Listings, disk: Disk, articleSize: nat)
    requires articleSize > 0
    requires DirSchedule(d, fs, articleSize).Ok? && AllOnDisk(DirSchedule(d, fs, articleSize).value, disk)
    ensures QueueReads(DirSchedule(d, fs, articleSize).value, disk, articleSize)
  {
    var dir := TrimSep(d);
    assert ReadParts(map[], disk, [], articleSize) == Ok(Trace(map[], []));
    if dir != [] {
      DirFilesNonEmpty(fs[dir]);
      FilesArticlesRead([], dir, DirFiles(fs[dir]), |DirFiles(fs[dir])|, disk, articleSize);
      assert [] + FilesArticles(dir, DirFiles(fs[dir]), |DirFiles(fs[dir])|, articleSize)
          == FilesArticles(dir, DirFiles(fs[dir]), |DirFiles(fs[dir])|, articleSize);
    }
  }

  /** A scan whose every directory's articles build cleanly builds cleanly as a whole. */
  lemma {:induction false} ScanReadsBy(dirs: seq<string>, n: nat, step: Step, disk: Disk, articleSize: nat)
    requires n <= |dirs|
    requires forall k :: 0 <= k < n && step(dirs[k]).Ok? && AllOnDisk(step(dirs[k]).value, disk) ==>
               QueueReads(step(dirs[k]).value, disk, articleSize)
    requires AllOnDisk(ScanFirst(dirs, n, step).articles, disk)
    ensures QueueReads(ScanFirst(dirs, n, step).articles, disk, articleSize)
  {
    if n == 0 {
      assert ReadParts(map[], disk, [], articleSize) == Ok(Trace(map[], []));
    } else {
      var prev := ScanFirst(dirs, n - 1, step);
      var next := step(dirs[n - 1]);
      if prev.failed.None? && next.Ok? {
        assert ScanFirst(dirs, n, step).articles == prev.articles + next.value;
        AllOnDiskSplit(prev.articles, next.value, disk);
        ScanReadsBy(dirs, n - 1, step, disk, articleSize);
        QueueReadsAppend(prev.articles, next.value, disk, articleSize);
      } else {
        assert ScanFirst(dirs, n, step).articles == prev.articles;
        ScanReadsBy(dirs, n - 1, step, disk, articleSize);
      }
    }
  }

  /**
    Building the queue the scan of the first n directories produced, in
    order, from an empty registry: every part reads exactly its window of
    its file, and every file opened is closed again, so the registry ends
    empty.
  */
  lemma ScanReads(dirs: seq<string>, n: nat, fs: Listings, disk: Disk, articleSize: nat)
    requires articleSize > 0 && n <= |dirs| && AllOnDisk(ScanFirst(dirs, n, DirStep(fs, articleSize)).articles, disk)
    ensures QueueReads(ScanFirst(dirs, n, DirStep(fs, articleSize)).articles, disk, articleSize)
  {
    var step := DirStep(fs, articleSize);
    forall k | 0 <= k < n && step(dirs[k]).Ok? && AllOnDisk(step(dirs[k]).value, disk)
      ensures QueueReads(step(dirs[k]).value, disk, articleSize)
    {
      DirScheduleReads(dirs[k], fs, disk, articleSize);
    }
    ScanReadsBy(dirs, n, step, disk, articleSize);
  }

  // ---------------------------------------------------------------------
  // The article text

  /** The text around one chunk: the template filled with the part number, then the envelope. */
  function Render(art: Article, chunk: Chunk, from: string, newsgroup: string, date: string, codec: Codec): (r: Result<seq<string>, BuildError>)
    requires chunk.begin <= chunk.end
    ensures r.Err? <==> Interpolate(art.subject, Decimal(art.partnum), false).Err?
  {
    match Interpolate(art.subject, Decimal(art.partnum), false)
    case Err(e) => Err(BadSubject(e))
    case Ok(subject) =>
      Ok(ArticleLines(from, newsgroup, date, subject, art.partnum, art.info.parts, art.info.filesize, art.info.filename,
                      chunk.begin, chunk.end, codec.encode(chunk.data), codec.crc32(chunk.data)))
  }

  /**
    One `build_article`: the file side first, then the text. A template
    that does not fill raises after the read, so the registry has already
    moved on; a file that cannot be opened leaves it as it was.
  */
  function Build(files: Registry, disk: Disk, art: Article, articleSize: nat,
                 from: string, newsgroup: string, date: string, codec: Codec): (r: Outcome)
    ensures art.info.filepath !in files && art.info.filepath !in disk ==> r == Outcome(files, Err(CannotOpen(art.info.filepath)))
    ensures r.text.Ok? <==> (art.info.filepath in files || art.info.filepath in disk)
                            && Interpolate(art.subject, Decimal(art.partnum), false).Ok?
  {
    match ReadPart(files, disk, art, articleSize)
    case Err(e) => Outcome(files, Err(e))
    case Ok(b) => Outcome(b.registry, Render(art, b.chunk, from, newsgroup, date, codec))
  }

  /** A build whose text renders read a chunk, and its registry and text are the ones that read gives. */
  lemma BuildRead(files: Registry, disk: Disk, art: Article, articleSize: nat,
                  from: string, newsgroup: string, date: string, codec: Codec)
    requires Build(files, disk, art, articleSize, from, newsgroup, date, codec).text.Ok?
    ensures ReadPart(files, disk, art, articleSize).Ok?
    ensures var b := ReadPart(files, disk, art, articleSize).value;
      && b.chunk.begin <= b.chunk.end
      && Build(files, disk, art, articleSize, from, newsgroup, date, codec)
         == Outcome(b.registry, Render(art, b.chunk, from, newsgroup, date, codec))
  {
  }

  /**
    An article of the queue always renders: the file's registered handle or
    its bytes on disk give the chunk, and the text carries the chunk's
    window in `=ypart`, its length, the part number and its masked CRC in
    `=yend`, and its encoding as the body.
  */
  lemma BuildScheduled(files: Registry, disk: Disk, art: Article, articleSize: nat,
                       from: string, newsgroup: string, date: string, codec: Codec)
    requires Scheduled(art, articleSize)
    requires art.info.filepath in files || art.info.filepath in disk
    ensures var o := Build(files, disk, art, articleSize, from, newsgroup, date, codec);
      var c := ReadPart(files, disk, art, articleSize).value.chunk;
      && o.text.Ok? && o.registry == ReadPart(files, disk, art, articleSize).value.registry
      && HeaderValue("Subject", o.text.value[3]) == Some(Interpolate(art.subject, Decimal(art.partnum), false).value)
      && ParseYBegin(o.text.value[6]) == Some(YBegin(art.partnum, art.info.parts, art.info.filesize, art.info.filename))
      && ParseYPart(o.text.value[7]) == Some(YPart(c.begin, c.end))
      && o.text.value[8] == codec.encode(c.data)
      && ParseYEnd(o.text.value[9]) == Some(YEnd(|c.data|, art.partnum, Mask32(codec.crc32(c.data))))
  {
    var c := ReadPart(files, disk, art, articleSize).value.chunk;
    var subject := Interpolate(art.subject, Decimal(art.partnum), false).value;
    ArticleFraming(from, newsgroup, date, subject, art.partnum, art.info.parts, art.info.filesize, art.info.filename,
                   c.begin, c.end, codec.encode(c.data), codec.crc32(c.data));
  }
}
