/**
  The work scheduler: how `generate_article_list` turns the directories it is
  given into the FIFO queue of articles, each a (file, subject template,
  part number) triple. These are the specification functions the imperative
  `Posting.Poster.GenerateArticleList` is proved against.
*/
module Scheduler {
  import opened Results
  import opened Formats
  import opened Names

  /** `os.sep` on a POSIX system. */
  const SEP: char := '/'

  /** One entry of a directory listing, with what `isfile` and `getsize` report for it. */
  datatype Entry = Entry(name: string, isFile: bool, size: nat)

  /** What `os.listdir` sees: the entries of each directory that exists, by the name it is listed under. */
  type Listings = map<string, seq<Entry>>

  datatype FileInfo = FileInfo(filename: string, filepath: string, filesize: nat, parts: nat)

  /** One work item: a part of a file and the subject it is posted under. */
  datatype Article = Article(info: FileInfo, subject: string, partnum: nat)

  /** The outcome of a scan: the articles appended, and the first directory that could not be listed. */
  datatype Scan = Scan(articles: seq<Article>, failed: Option<string>)

  // ---------------------------------------------------------------------
  // Directory names, paths and part counts

  /** Drops one trailing separator, as `dirname[:-len(os.sep)]` does. */
  function TrimSep(d: string): (r: string)
    ensures |d| > 0 && d[|d| - 1] == SEP ==> r + [SEP] == d
    ensures !(|d| > 0 && d[|d| - 1] == SEP) ==> r == d
  {
    if |d| > 0 && d[|d| - 1] == SEP then d[..|d| - 1] else d
  }

  /** `os.path.join(dir, name)` on a POSIX system. */
  function Join(dir: string, name: string): string
  {
    if |name| > 0 && name[0] == SEP then name
    else if dir == [] || dir[|dir| - 1] == SEP then dir + name
    else dir + [SEP] + name
  }

  /** A directory joined with a listed name starts with the directory and ends with the name. */
  lemma JoinParts(dir: string, name: string)
    requires SEP !in name
    ensures var p := Join(dir, name);
      && |dir| + |name| <= |p| <= |dir| + 1 + |name|
      && p[..|dir|] == dir && p[|p| - |name|..] == name
  {
    var p := Join(dir, name);
    if |name| > 0 {
      assert name[0] in name;
    }
    if !(dir == [] || dir[|dir| - 1] == SEP) {
      assert p == dir + ([SEP] + name);
    }
  }

  /** i * articleSize, counted up one article at a time. */
  function Offset(i: nat, articleSize: nat): nat
  {
    if i == 0 then 0 else Offset(i - 1, articleSize) + articleSize
  }

  lemma {:induction false} OffsetIsProduct(i: nat, articleSize: nat)
    ensures Offset(i, articleSize) == i * articleSize
  {
    if i > 0 {
      OffsetIsProduct(i - 1, articleSize);
      assert (i - 1) * articleSize + articleSize == i * articleSize;
    }
  }

  lemma {:induction false} OffsetMonotone(k: nat, m: nat, articleSize: nat)
    requires k <= m
    ensures Offset(k, articleSize) <= Offset(m, articleSize)
    decreases m
  {
    if k < m {
      OffsetMonotone(k, m - 1, articleSize);
    }
  }

  /** The number of articles a file of `size` bytes needs: the fewest `articleSize`-byte windows that cover it. */
  function PartCount(size: nat, articleSize: nat): (parts: nat)
    requires articleSize > 0
    ensures size == 0 <==> parts == 0
    decreases size
  {
    if size == 0 then 0
    else if size <= articleSize then 1
    else 1 + PartCount(size - articleSize, articleSize)
  }

  /** The last part starts inside the file and the parts reach its end: parts is the ceiling of size / articleSize. */
  lemma {:induction false} PartCountOffsets(size: nat, articleSize: nat)
    requires articleSize > 0 && size > 0
    ensures var parts := PartCount(size, articleSize);
      Offset(parts - 1, articleSize) < size <= Offset(parts, articleSize)
    decreases size
  {
    if size > articleSize {
      PartCountOffsets(size - articleSize, articleSize);
      var rest := PartCount(size - articleSize, articleSize);
      assert PartCount(size, articleSize) == rest + 1;
      assert Offset(rest, articleSize) == Offset(rest - 1, articleSize) + articleSize;
    } else {
      assert PartCount(size, articleSize) == 1;
      assert Offset(1, articleSize) == articleSize;
    }
  }

  /** The same bounds as products: (parts - 1) * articleSize < size <= parts * articleSize. */
  lemma PartCountBounds(size: nat, articleSize: nat)
    requires articleSize > 0 && size > 0
    ensures var parts := PartCount(size, articleSize);
      (parts - 1) * articleSize < size <= parts * articleSize
  {
    var parts := PartCount(size, articleSize);
    PartCountOffsets(size, articleSize);
    OffsetIsProduct(parts - 1, articleSize);
    OffsetIsProduct(parts, articleSize);
  }

  lemma {:induction false} MulAtLeast(k: nat, d: nat)
    requires k >= 1
    ensures k * d >= d
  {
    if k > 1 {
      MulAtLeast(k - 1, d);
      assert k * d == (k - 1) * d + d;
    }
  }

  /** x == q * d + r with 0 <= r < d determines x / d and x % d. */
  lemma DivModUnique(x: nat, d: nat, q: nat, r: nat)
    requires d > 0 && r < d && x == q * d + r
    ensures x / d == q && x % d == r
  {
    var q', r' := x / d, x % d;
    assert q' * d + r' == q * d + r && 0 <= r' < d;
    if q' > q {
      assert (q' - q) * d == q' * d - q * d;
      MulAtLeast(q' - q, d);
    } else if q' < q {
      assert (q - q') * d == q * d - q' * d;
      MulAtLeast(q - q', d);
    }
  }

  /**
    `divmod(size, articleSize)` rounded up, as `generate_article_list` computes
    the number of parts, is the part count.
  */
  lemma {:induction false} DivModParts(size: nat, articleSize: nat)
    requires articleSize > 0
    ensures (if size % articleSize != 0 then size / articleSize + 1 else size / articleSize) == PartCount(size, articleSize)
    decreases size
  {
    if size > articleSize {
      var q, r := size / articleSize, size % articleSize;
      assert size == q * articleSize + r && 0 <= r < articleSize;
      DivModUnique(size, articleSize, q, r);
      assert q >= 1;
      assert size - articleSize == (q - 1) * articleSize + r;
      DivModUnique(size - articleSize, articleSize, q - 1, r);
      DivModParts(size - articleSize, articleSize);
    } else if size == articleSize {
      DivModUnique(size, articleSize, 1, 0);
    } else {
      DivModUnique(size, articleSize, 0, size);
    }
  }

  // ---------------------------------------------------------------------
  // Choosing and ordering the files of one directory

  /** Kept for posting: a regular file whose size is not zero. */
  predicate Postable(e: Entry)
  {
    e.isFile && e.size > 0
  }

  /** The postable entries of a listing, in listing order. */
  function Retained(listing: seq<Entry>): (r: seq<Entry>)
    ensures |r| <= |listing|
  {
    if listing == [] then []
    else
      var last := listing[|listing| - 1];
      Retained(listing[..|listing| - 1]) + (if Postable(last) then [last] else [])
  }

  /** Exactly the postable entries of a listing are retained. */
  lemma {:induction false} RetainedPostable(listing: seq<Entry>)
    ensures forall e :: e in Retained(listing) <==> e in listing && Postable(e)
  {
    if listing != [] {
      var front, last := listing[..|listing| - 1], listing[|listing| - 1];
      RetainedPostable(front);
      assert listing == front + [last];
    }
  }

  predicate SortedByName(s: seq<Entry>)
  {
    forall i, j :: 0 <= i < j < |s| ==> NameLe(s[i].name, s[j].name)
  }

  /** Puts `e` into `s` before the first name it does not exceed. */
  function InsertByName(e: Entry, s: seq<Entry>): (r: seq<Entry>)
    ensures multiset(r) == multiset(s) + multiset{e}
  {
    if s == [] then [e]
    else if NameLe(e.name, s[0].name) then [e] + s
    else
      assert s == [s[0]] + s[1..];
      [s[0]] + InsertByName(e, s[1..])
  }

  lemma {:induction false} InsertByNameSorted(e: Entry, s: seq<Entry>)
    requires SortedByName(s)
    ensures SortedByName(InsertByName(e, s))
  {
    if s == [] {
    } else if NameLe(e.name, s[0].name) {
      forall j | 0 < j < |s| ensures NameLe(e.name, s[j].name) {
        NameLeTransitive(e.name, s[0].name, s[j].name);
      }
    } else {
      var rest := InsertByName(e, s[1..]);
      InsertByNameSorted(e, s[1..]);
      NameLeTotal(e.name, s[0].name);
      assert s == [s[0]] + s[1..];
      forall j | 0 <= j < |rest| ensures NameLe(s[0].name, rest[j].name) {
        assert rest[j] in multiset(rest);
        if rest[j] != e {
          assert rest[j] in multiset(s[1..]);
          var m :| 0 <= m < |s[1..]| && s[1..][m] == rest[j];
          assert s[m + 1] == rest[j];
        }
      }
      assert InsertByName(e, s) == [s[0]] + rest;
    }
  }

  /** `files.sort()`: the entries ordered by name, nothing added or lost. */
  function SortByName(s: seq<Entry>): (r: seq<Entry>)
    ensures multiset(r) == multiset(s)
    ensures SortedByName(r)
  {
    if s == [] then []
    else
      assert s == [s[0]] + s[1..];
      InsertByNameSorted(s[0], SortByName(s[1..]));
      InsertByName(s[0], SortByName(s[1..]))
  }

  // ---------------------------------------------------------------------
  // Subjects

  /**
    The subject template exactly as `'%s [%s/%d] - "%s" yEnc (%%s/%d)' % (...)`
    builds it: the directory and file names are pasted in unescaped.
  */
  function SubjectTemplateAsWritten(dir: string, num: string, count: nat, name: string, parts: nat): string
  {
    dir + (" [" + (num + ("/" + Decimal(count) + "] - \"" + (name + ("\" yEnc (" + ("%s" + ("/" + Decimal(parts) + ")")))))))
  }

  /**
    The subject template with every '%' of the directory and file names
    doubled, so that the later `subject % partnum` fills only the part slot.
  */
  function SubjectTemplate(dir: string, num: string, count: nat, name: string, parts: nat): string
  {
    Escape(dir) + (" [" + (num + ("/" + Decimal(count) + "] - \"" + (Escape(name) + ("\" yEnc (" + ("%s" + ("/" + Decimal(parts) + ")")))))))
  }

  /** The subject line an article is meant to carry. */
  function Subject(dir: string, num: string, count: nat, name: string, part: nat, parts: nat): string
  {
    dir + (" [" + (num + ("/" + Decimal(count) + "] - \"" + (name + ("\" yEnc (" + (Decimal(part) + ("/" + Decimal(parts) + ")")))))))
  }

  lemma DigitsHaveNoPercent(s: string)
    requires AllDigits(s)
    ensures '%' !in s
  {
    forall i | 0 <= i < |s| ensures s[i] != '%' {
      assert IsDigit(s[i]);
    }
  }

  /** Filling the slot of a template yields the intended subject, whatever the names contain. */
  lemma SubjectTemplateFills(dir: string, num: string, count: nat, name: string, part: nat, parts: nat)
    requires AllDigits(num)
    ensures Interpolate(SubjectTemplate(dir, num, count, name, parts), Decimal(part), false)
         == Ok(Subject(dir, num, count, name, part, parts))
  {
    var arg := Decimal(part);
    var l4 := "/" + Decimal(parts) + ")";
    var l3 := "\" yEnc (";
    var l2 := "/" + Decimal(count) + "] - \"";
    var l1 := " [";
    DigitsHaveNoPercent(num);
    DigitsHaveNoPercent(Decimal(count));
    DigitsHaveNoPercent(Decimal(parts));
    assert '%' !in l2;
    assert '%' !in l4;
    InterpolateLiteral(l4, [], arg, true);
    assert l4 + [] == l4;
    var r6 := "%s" + l4;
    InterpolateSlot(l4, arg);
    var r5 := l3 + r6;
    InterpolateLiteral(l3, r6, arg, false);
    var r4 := Escape(name) + r5;
    InterpolateEscaped(name, r5, arg, false);
    var r3 := l2 + r4;
    InterpolateLiteral(l2, r4, arg, false);
    var r2 := num + r3;
    InterpolateLiteral(num, r3, arg, false);
    var r1 := l1 + r2;
    InterpolateLiteral(l1, r2, arg, false);
    InterpolateEscaped(dir, r1, arg, false);
  }

  /**
    The template as written breaks on a file named `x%s`: the name's own
    "%s" takes the part number and the real slot finds no argument left,
    so `subject % partnum` raises instead of producing a subject.
  */
  lemma SubjectTemplateAsWrittenBreaks()
    ensures Interpolate(SubjectTemplateAsWritten("d", "1", 1, "x%s", 1), Decimal(1), false) == Err(NotEnoughArguments)
  {
    var t := SubjectTemplateAsWritten("d", "1", 1, "x%s", 1);
    var lead := "d [1/1] - \"x";
    var tail := "\" yEnc (" + "%s/1)";
    assert Decimal(1) == "1";
    assert t == lead + ("%s" + tail);
    InterpolateLiteral(lead, "%s" + tail, "1", false);
    InterpolateSlot(tail, "1");
    InterpolateLiteral("\" yEnc (", "%s/1)", "1", true);
  }

  /**
    Names without '%' make the corrected template the one the code builds,
    so what is proved of the queue holds of the program as written for them.
  */
  lemma SubjectTemplateUnescaped(dir: string, num: string, count: nat, name: string, parts: nat)
    requires '%' !in dir && '%' !in name
    ensures SubjectTemplate(dir, num, count, name, parts) == SubjectTemplateAsWritten(dir, num, count, name, parts)
  {
  }

  /** The template as written fills with the intended subject whenever the names contain no '%'. */
  lemma SubjectTemplateAsWrittenFills(dir: string, num: string, count: nat, name: string, part: nat, parts: nat)
    requires AllDigits(num) && '%' !in dir && '%' !in name
    ensures Interpolate(SubjectTemplateAsWritten(dir, num, count, name, parts), Decimal(part), false)
         == Ok(Subject(dir, num, count, name, part, parts))
  {
    SubjectTemplateUnescaped(dir, num, count, name, parts);
    SubjectTemplateFills(dir, num, count, name, part, parts);
  }

  // ---------------------------------------------------------------------
  // The queue

  /** The file information `generate_article_list` records for a retained entry. */
  function InfoFor(dir: string, e: Entry, articleSize: nat): FileInfo
    requires articleSize > 0
  {
    FileInfo(e.name, Join(dir, e.name), e.size, PartCount(e.size, articleSize))
  }

  /** Parts 1..parts of one file, in ascending order. */
  function FileArticles(info: FileInfo, subject: string): (r: seq<Article>)
    ensures |r| == info.parts
    ensures forall i :: 0 <= i < |r| ==> r[i] == Article(info, subject, i + 1)
  {
    seq(info.parts, i requires 0 <= i < info.parts => Article(info, subject, i + 1))
  }

  /** The articles of the file numbered `n` of the `count` files of directory `dir`. */
  function FileBlock(dir: string, e: Entry, n: nat, count: nat, articleSize: nat): seq<Article>
    requires articleSize > 0
  {
    var info := InfoFor(dir, e, articleSize);
    FileArticles(info, SubjectTemplate(dir, PaddedDecimal(n, |Decimal(count)|), count, e.name, info.parts))
  }

  /** The articles of the first |files| files of a directory of `count` files, numbered from 1. */
  function FilesArticles(dir: string, files: seq<Entry>, count: nat, articleSize: nat): seq<Article>
    requires articleSize > 0
  {
    if files == [] then []
    else FilesArticles(dir, files[..|files| - 1], count, articleSize)
         + FileBlock(dir, files[|files| - 1], |files|, count, articleSize)
  }

  /** The files of a listing that get posted, in the order they are numbered. */
  function DirFiles(listing: seq<Entry>): seq<Entry>
  {
    SortByName(Retained(listing))
  }

  /** The files numbered for posting are exactly the postable entries of the listing. */
  lemma DirFilesPostable(listing: seq<Entry>)
    ensures forall e :: e in DirFiles(listing) <==> e in listing && Postable(e)
  {
    RetainedPostable(listing);
    var kept := Retained(listing);
    forall e ensures e in DirFiles(listing) <==> e in kept {
      assert e in DirFiles(listing) <==> e in multiset(DirFiles(listing));
      assert e in kept <==> e in multiset(kept);
    }
  }

  /** Every file numbered for posting has data. */
  lemma DirFilesNonEmpty(listing: seq<Entry>)
    ensures forall j :: 0 <= j < |DirFiles(listing)| ==> DirFiles(listing)[j].size > 0
  {
    DirFilesPostable(listing);
    var files := DirFiles(listing);
    forall j | 0 <= j < |files| ensures files[j].size > 0 {
      assert files[j] in files;
    }
  }

  /** One directory's articles, or the directory that `os.listdir` could not read. */
  function DirSchedule(d: string, fs: Listings, articleSize: nat): (r: Result<seq<Article>, string>)
    requires articleSize > 0
    ensures TrimSep(d) == [] ==> r == Ok([])
    ensures r.Err? <==> TrimSep(d) != [] && TrimSep(d) !in fs
  {
    var dir := TrimSep(d);
    if dir == [] then Ok([])
    else if dir !in fs then Err(dir)
    else
      var files := DirFiles(fs[dir]);
      Ok(FilesArticles(dir, files, |files|, articleSize))
  }

  /** The scan after one more directory: nothing more once a directory has failed. */
  function Extend(prev: Scan, next: Result<seq<Article>, string>): Scan
  {
    if prev.failed.Some? then prev
    else match next
      case Err(dir) => Scan(prev.articles, Some(dir))
      case Ok(more) => Scan(prev.articles + more, None)
  }

  /** What scanning one directory gives: its articles, or the directory that could not be listed. */
  type Step = string -> Result<seq<Article>, string>

  /** The step of `generate_article_list`: `DirSchedule` over the given listings. */
  function DirStep(fs: Listings, articleSize: nat): Step
    requires articleSize > 0
  {
    d => DirSchedule(d, fs, articleSize)
  }

  /** The scan after the first n directories of `dirs`, directory after directory. */
  function ScanFirst(dirs: seq<string>, n: nat, step: Step): Scan
    requires n <= |dirs|
  {
    if n == 0 then Scan([], None)
    else Extend(ScanFirst(dirs, n - 1, step), step(dirs[n - 1]))
  }

  /** What `generate_article_list(dirs)` appends to the queue, and the directory it raised on, if any. */
  function Schedule(dirs: seq<string>, fs: Listings, articleSize: nat): Scan
    requires articleSize > 0
  {
    ScanFirst(dirs, |dirs|, DirStep(fs, articleSize))
  }

  /** Once a directory has failed, scanning further directories changes nothing. */
  lemma {:induction false} ScanStops(dirs: seq<string>, m: nat, n: nat, step: Step)
    requires m <= n <= |dirs| && ScanFirst(dirs, m, step).failed.Some?
    ensures ScanFirst(dirs, n, step) == ScanFirst(dirs, m, step)
    decreases n
  {
    if n > m {
      ScanStops(dirs, m, n - 1, step);
    }
  }

  /** The queue is only appended to: the articles of the first m directories stay at its front. */
  lemma {:induction false} ScanGrows(dirs: seq<string>, m: nat, n: nat, step: Step)
    requires m <= n <= |dirs|
    ensures ScanFirst(dirs, m, step).articles <= ScanFirst(dirs, n, step).articles
    decreases n
  {
    if n > m {
      ScanGrows(dirs, m, n - 1, step);
      var prev, next := ScanFirst(dirs, n - 1, step), step(dirs[n - 1]);
      if prev.failed.None? && next.Ok? {
        var front := ScanFirst(dirs, m, step).articles;
        assert (prev.articles + next.value)[..|front|] == prev.articles[..|front|];
      }
    }
  }

  /** One more directory of a scan that has not failed: its articles are appended, or the scan ends there. */
  lemma ScanNext(dirs: seq<string>, d: nat, step: Step)
    requires d < |dirs| && ScanFirst(dirs, d, step).failed == None
    ensures step(dirs[d]).Ok? ==>
      ScanFirst(dirs, d + 1, step) == Scan(ScanFirst(dirs, d, step).articles + step(dirs[d]).value, None)
    ensures step(dirs[d]).Err? ==>
      ScanFirst(dirs, |dirs|, step) == Scan(ScanFirst(dirs, d, step).articles, Some(step(dirs[d]).error))
  {
    if step(dirs[d]).Err? {
      ScanStops(dirs, d + 1, |dirs|, step);
    }
  }

  /** `ScanNext` for the directory step of `generate_article_list`: the scan either appends the directory's articles or ends with its name. */
  lemma ScheduleNext(dirs: seq<string>, d: nat, fs: Listings, articleSize: nat)
    requires articleSize > 0 && d < |dirs| && ScanFirst(dirs, d, DirStep(fs, articleSize)).failed == None
    ensures DirSchedule(dirs[d], fs, articleSize).Ok? ==>
      ScanFirst(dirs, d + 1, DirStep(fs, articleSize))
      == Scan(ScanFirst(dirs, d, DirStep(fs, articleSize)).articles + DirSchedule(dirs[d], fs, articleSize).value, None)
    ensures DirSchedule(dirs[d], fs, articleSize).Err? ==>
      Schedule(dirs, fs, articleSize)
      == Scan(ScanFirst(dirs, d, DirStep(fs, articleSize)).articles, Some(DirSchedule(dirs[d], fs, articleSize).error))
  {
    ScanNext(dirs, d, DirStep(fs, articleSize));
    assert DirStep(fs, articleSize)(dirs[d]) == DirSchedule(dirs[d], fs, articleSize);
  }

  /** The next file of a directory appends its parts, numbered j + 1, after those of the files before it. */
  lemma FilesArticlesNext(dir: string, files: seq<Entry>, j: nat, count: nat, articleSize: nat, info: FileInfo, subject: string)
    requires articleSize > 0 && j < |files|
    requires info == FileInfo(files[j].name, Join(dir, files[j].name), files[j].size, PartCount(files[j].size, articleSize))
    requires subject == SubjectTemplate(dir, PaddedDecimal(j + 1, |Decimal(count)|), count, files[j].name, info.parts)
    ensures FilesArticles(dir, files[..j + 1], count, articleSize)
         == FilesArticles(dir, files[..j], count, articleSize) + FileArticles(info, subject)
  {
    var front := files[..j + 1];
    assert front[..j] == files[..j] && front[j] == files[j] && |front| == j + 1;
    assert FileBlock(dir, files[j], j + 1, count, articleSize) == FileArticles(info, subject);
    assert FilesArticles(dir, front, count, articleSize)
        == FilesArticles(dir, front[..j], count, articleSize) + FileBlock(dir, front[j], j + 1, count, articleSize);
  }

  // ---------------------------------------------------------------------
  // Properties of the queue

  /** What every queued article satisfies: a real part of a non-empty file, and a subject that fills. */
  predicate Scheduled(art: Article, articleSize: nat)
  {
    && articleSize > 0
    && art.info.filesize > 0
    && art.info.parts == PartCount(art.info.filesize, articleSize)
    && 1 <= art.partnum <= art.info.parts
    && Interpolate(art.subject, Decimal(art.partnum), false).Ok?
  }

  /** The number of articles of the first |files| files. */
  function TotalParts(files: seq<Entry>, articleSize: nat): nat
    requires articleSize > 0
  {
    if files == [] then 0
    else TotalParts(files[..|files| - 1], articleSize) + PartCount(files[|files| - 1].size, articleSize)
  }

  /** Where the articles of file j of `files` start in the directory's queue. */
  function BlockStart(files: seq<Entry>, j: nat, articleSize: nat): nat
    requires articleSize > 0 && j <= |files|
  {
    TotalParts(files[..j], articleSize)
  }

  /** File j of `files` (numbered j + 1) owns the stretch of `queue` between its block start and the next. */
  predicate BlockPlaced(queue: seq<Article>, dir: string, files: seq<Entry>, count: nat, articleSize: nat, j: nat)
    requires articleSize > 0 && j < |files|
  {
    && BlockStart(files, j, articleSize) <= BlockStart(files, j + 1, articleSize) <= |queue|
    && queue[BlockStart(files, j, articleSize)..BlockStart(files, j + 1, articleSize)]
       == FileBlock(dir, files[j], j + 1, count, articleSize)
  }

  lemma BlockPlacedInFront(front: seq<Article>, block: seq<Article>, dir: string, files: seq<Entry>, count: nat, articleSize: nat, j: nat)
    requires articleSize > 0 && j + 1 < |files|
    requires BlockPlaced(front, dir, files[..|files| - 1], count, articleSize, j)
    ensures BlockPlaced(front + block, dir, files, count, articleSize, j)
  {
    var prefix := files[..|files| - 1];
    assert prefix[..j] == files[..j];
    assert prefix[..j + 1] == files[..j + 1];
    assert prefix[j] == files[j];
    var lo, hi := BlockStart(files, j, articleSize), BlockStart(files, j + 1, articleSize);
    assert BlockStart(prefix, j, articleSize) == lo && BlockStart(prefix, j + 1, articleSize) == hi;
    SliceInFront(front, block, lo, hi);
  }

  lemma SliceInFront<T>(front: seq<T>, back: seq<T>, lo: nat, hi: nat)
    requires lo <= hi <= |front|
    ensures (front + back)[lo..hi] == front[lo..hi]
  {
  }

  lemma BlockPlacedLast(front: seq<Article>, dir: string, files: seq<Entry>, count: nat, articleSize: nat)
    requires articleSize > 0 && |files| > 0
    requires |front| == TotalParts(files[..|files| - 1], articleSize)
    ensures BlockPlaced(front + FileBlock(dir, files[|files| - 1], |files|, count, articleSize),
                        dir, files, count, articleSize, |files| - 1)
  {
    var n := |files|;
    var block := FileBlock(dir, files[n - 1], n, count, articleSize);
    assert files[..n] == files;
    assert (front + block)[|front|..|front| + |block|] == block;
  }

  lemma BlocksPlacedStep(front: seq<Article>, block: seq<Article>, dir: string, prefix: seq<Entry>, files: seq<Entry>, count: nat, articleSize: nat)
    requires articleSize > 0 && |files| > 0 && prefix == files[..|files| - 1]
    requires block == FileBlock(dir, files[|files| - 1], |files|, count, articleSize)
    requires |front| == TotalParts(prefix, articleSize)
    requires forall j: nat :: j < |prefix| ==> BlockPlaced(front, dir, prefix, count, articleSize, j)
    ensures forall j: nat :: j < |files| ==> BlockPlaced(front + block, dir, files, count, articleSize, j)
  {
    forall j: nat | j < |files|
      ensures BlockPlaced(front + block, dir, files, count, articleSize, j)
    {
      if j < |files| - 1 {
        BlockPlacedInFront(front, block, dir, files, count, articleSize, j);
      } else {
        BlockPlacedLast(front, dir, files, count, articleSize);
      }
    }
  }

  /**
    The queue of a directory is its files' blocks back to back: each file
    owns exactly the stretch between the parts of the files before it and
    those after it, holding its parts 1..parts in order.
  */
  lemma {:induction false} FilesArticlesLayout(dir: string, files: seq<Entry>, count: nat, articleSize: nat)
    requires articleSize > 0
    ensures |FilesArticles(dir, files, count, articleSize)| == TotalParts(files, articleSize)
    ensures forall j: nat :: j < |files| ==>
      BlockPlaced(FilesArticles(dir, files, count, articleSize), dir, files, count, articleSize, j)
  {
    if files != [] {
      var prefix := files[..|files| - 1];
      FilesArticlesLayout(dir, prefix, count, articleSize);
      var block := FileBlock(dir, files[|files| - 1], |files|, count, articleSize);
      BlocksPlacedStep(FilesArticles(dir, prefix, count, articleSize), block, dir, prefix, files, count, articleSize);
    }
  }

  lemma FileBlockScheduled(dir: string, e: Entry, n: nat, count: nat, articleSize: nat)
    requires articleSize > 0 && e.size > 0 && n <= count
    ensures forall i :: 0 <= i < |FileBlock(dir, e, n, count, articleSize)| ==>
      Scheduled(FileBlock(dir, e, n, count, articleSize)[i], articleSize)
  {
    var info := InfoFor(dir, e, articleSize);
    var num := PaddedDecimal(n, |Decimal(count)|);
    PaddedDecimalWidth(n, count);
    forall p | 1 <= p <= info.parts
      ensures Interpolate(SubjectTemplate(dir, num, count, e.name, info.parts), Decimal(p), false).Ok?
    {
      SubjectTemplateFills(dir, num, count, e.name, p, info.parts);
    }
  }

  lemma {:induction false} FilesArticlesScheduled(dir: string, files: seq<Entry>, count: nat, articleSize: nat)
    requires articleSize > 0 && |files| <= count
    requires forall j :: 0 <= j < |files| ==> files[j].size > 0
    ensures forall i :: 0 <= i < |FilesArticles(dir, files, count, articleSize)| ==>
      Scheduled(FilesArticles(dir, files, count, articleSize)[i], articleSize)
  {
    if files != [] {
      var n := |files|;
      FilesArticlesScheduled(dir, files[..n - 1], count, articleSize);
      FileBlockScheduled(dir, files[n - 1], n, count, articleSize);
    }
  }

  /** Every article of `q` is a part 1..parts of a non-empty file, with a subject that fills. */
  predicate AllScheduled(q: seq<Article>, articleSize: nat)
  {
    forall i :: 0 <= i < |q| ==> Scheduled(q[i], articleSize)
  }

  lemma AllScheduledAppend(q1: seq<Article>, q2: seq<Article>, articleSize: nat)
    requires AllScheduled(q1, articleSize) && AllScheduled(q2, articleSize)
    ensures AllScheduled(q1 + q2, articleSize)
  {
    forall i | 0 <= i < |q1 + q2| ensures Scheduled((q1 + q2)[i], articleSize) {
      if i < |q1| {
        assert (q1 + q2)[i] == q1[i];
      } else {
        assert (q1 + q2)[i] == q2[i - |q1|];
      }
    }
  }

  /** Every article a directory contributes is a part 1..parts of a non-empty file, with a subject that fills. */
  lemma DirScheduleScheduled(d: string, fs: Listings, articleSize: nat)
    requires articleSize > 0
    ensures var r := DirSchedule(d, fs, articleSize); r.Ok? ==> AllScheduled(r.value, articleSize)
  {
    var dir := TrimSep(d);
    if dir != [] && dir in fs {
      DirFilesNonEmpty(fs[dir]);
      FilesArticlesScheduled(dir, DirFiles(fs[dir]), |DirFiles(fs[dir])|, articleSize);
    }
  }

  /** Every article the scan of the first n directories queues is a part 1..parts of a non-empty file, with a subject that fills. */
  lemma {:induction false} ScanScheduled(dirs: seq<string>, n: nat, fs: Listings, articleSize: nat)
    requires articleSize > 0 && n <= |dirs|
    ensures AllScheduled(ScanFirst(dirs, n, DirStep(fs, articleSize)).articles, articleSize)
  {
    if n > 0 {
      var step := DirStep(fs, articleSize);
      ScanScheduled(dirs, n - 1, fs, articleSize);
      var prev, next := ScanFirst(dirs, n - 1, step), step(dirs[n - 1]);
      assert next == DirSchedule(dirs[n - 1], fs, articleSize);
      DirScheduleScheduled(dirs[n - 1], fs, articleSize);
      if prev.failed.None? && next.Ok? {
        AllScheduledAppend(prev.articles, next.value, articleSize);
      }
    }
  }
}
