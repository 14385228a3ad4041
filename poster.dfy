/**
  The `Poster` object: its queue of articles, its list of idle
  connections, its registry of open files, and the steps of `post` that
  move work between them — building the queue, pairing idle connections
  with queued articles, the completion test, and the once-a-second
  reconnect sweep. Connections are known by the number they were created
  with; what `do_connect` and `post_article` then do on the network is
  recorded in `connects` and `posted`, in the order the calls are made.
*/
module Posting {
  import opened Results
  import opened Formats
  import opened Scheduler
  import opened Builder
  import opened Envelope

  /** The two things the event loop reads of an asyncNNTP connection. */
  datatype Connection = Connection(disconnected: bool, reconnectAt: real)

  /** One `conn.post_article(postfile)`: the connection, and the text the buffer holds. */
  datatype Post = Post(conn: nat, lines: seq<string>)

  /** Where pairing idle connections with queued articles stops. */
  datatype Drained = Drained(idle: seq<nat>, articles: seq<Article>, files: Registry, posts: seq<Post>, error: Option<BuildError>)

  // ---------------------------------------------------------------------
  // Specification functions

  /** The connections the reconnect sweep calls `do_connect` on, in list order. */
  function Due(conns: seq<Connection>, now: real): (r: seq<nat>)
    ensures |r| <= |conns|
  {
    if conns == [] then []
    else
      var last := conns[|conns| - 1];
      Due(conns[..|conns| - 1], now) + (if last.disconnected && now >= last.reconnectAt then [|conns| - 1] else [])
  }

  /** A connection is swept exactly when it is disconnected and its reconnect time has come. */
  lemma {:induction false} DueExactly(conns: seq<Connection>, now: real)
    ensures forall i :: i in Due(conns, now) <==> 0 <= i < |conns| && conns[i].disconnected && now >= conns[i].reconnectAt
  {
    if conns != [] {
      var front := conns[..|conns| - 1];
      DueExactly(front, now);
      forall i | 0 <= i < |front| ensures front[i] == conns[i] { }
    }
  }

  /** The sweep visits connections in list order, each at most once. */
  lemma {:induction false} DueIncreasing(conns: seq<Connection>, now: real)
    ensures forall j, k :: 0 <= j < k < |Due(conns, now)| ==> Due(conns, now)[j] < Due(conns, now)[k]
  {
    if conns != [] {
      var front := conns[..|conns| - 1];
      DueIncreasing(front, now);
      DueExactly(front, now);
      var d := Due(front, now);
      forall j | 0 <= j < |d| ensures d[j] < |conns| - 1 {
        assert d[j] in d;
      }
    }
  }

  /**
    The dispatch loop on values: while there is an idle connection and a
    queued article, pop both, build the article and post it on that
    connection; a build that raises ends the loop with both already popped.
  */
  function Drain(idle: seq<nat>, articles: seq<Article>, files: Registry, disk: Disk, articleSize: nat,
                 from: string, newsgroup: string, date: string, codec: Codec): Drained
    decreases |idle|
  {
    if idle == [] || articles == [] then Drained(idle, articles, files, [], None)
    else
      var o := Build(files, disk, articles[0], articleSize, from, newsgroup, date, codec);
      match o.text
      case Err(e) => Drained(idle[1..], articles[1..], o.registry, [], Some(e))
      case Ok(lines) =>
        var rest := Drain(idle[1..], articles[1..], o.registry, disk, articleSize, from, newsgroup, date, codec);
        rest.(posts := [Post(idle[0], lines)] + rest.posts)
  }

  /** A post carries the text rendered around a chunk of an article. */
  predicate Carries(post: Post, art: Article, chunk: Chunk, from: string, newsgroup: string, date: string, codec: Codec)
  {
    chunk.begin <= chunk.end && Render(art, chunk, from, newsgroup, date, codec) == Ok(post.lines)
  }

  /** One turn of the dispatch loop, unfolded. */
  lemma DrainStep(idle: seq<nat>, articles: seq<Article>, files: Registry, disk: Disk, articleSize: nat,
                  from: string, newsgroup: string, date: string, codec: Codec)
    requires idle != [] && articles != []
    ensures var o := Build(files, disk, articles[0], articleSize, from, newsgroup, date, codec);
      var rest := Drain(idle[1..], articles[1..], o.registry, disk, articleSize, from, newsgroup, date, codec);
      Drain(idle, articles, files, disk, articleSize, from, newsgroup, date, codec)
      == if o.text.Err? then Drained(idle[1..], articles[1..], o.registry, [], Some(o.text.error))
         else rest.(posts := [Post(idle[0], o.text.value)] + rest.posts)
  {
  }

  /**
    The shape of a dispatch: the k-th post goes to the k-th idle
    connection; both lists lose exactly the pairs taken (one more on an
    error); and without an error min(|idle|, |articles|) pairs are taken,
    so one of the two lists is left empty.
  */
  predicate Paired(r: Drained, idle: seq<nat>, articles: seq<Article>)
  {
    var taken := |r.posts| + (if r.error.Some? then 1 else 0);
    && taken <= |idle| && taken <= |articles|
    && r.idle == idle[taken..] && r.articles == articles[taken..]
    && (r.error.None? ==> |r.posts| == Min(|idle|, |articles|))
    && (forall k :: 0 <= k < |r.posts| ==> r.posts[k].conn == idle[k])
  }

  /** Every dispatch has the shape `Paired` describes. */
  lemma {:induction false} DrainPairs(idle: seq<nat>, articles: seq<Article>, files: Registry, disk: Disk, articleSize: nat,
                                      from: string, newsgroup: string, date: string, codec: Codec)
    ensures Paired(Drain(idle, articles, files, disk, articleSize, from, newsgroup, date, codec), idle, articles)
    decreases |idle|
  {
    if idle != [] && articles != [] {
      var o := Build(files, disk, articles[0], articleSize, from, newsgroup, date, codec);
      DrainStep(idle, articles, files, disk, articleSize, from, newsgroup, date, codec);
      if o.text.Ok? {
        DrainPairs(idle[1..], articles[1..], o.registry, disk, articleSize, from, newsgroup, date, codec);
        PairedCons(Drain(idle, articles, files, disk, articleSize, from, newsgroup, date, codec),
                   Drain(idle[1..], articles[1..], o.registry, disk, articleSize, from, newsgroup, date, codec),
                   Post(idle[0], o.text.value), idle, articles);
      }
    }
  }

  /** A post to the first idle connection, in front of a dispatch of the rest. */
  lemma PairedCons(r: Drained, rest: Drained, first: Post, idle: seq<nat>, articles: seq<Article>)
    requires idle != [] && articles != [] && first.conn == idle[0]
    requires r == rest.(posts := [first] + rest.posts)
    requires Paired(rest, idle[1..], articles[1..])
    ensures Paired(r, idle, articles)
  {
    var t := |rest.posts| + (if rest.error.Some? then 1 else 0);
    assert idle[1..][t..] == idle[t + 1..] && articles[1..][t..] == articles[t + 1..];
    forall k | 0 <= k < |r.posts| ensures r.posts[k].conn == idle[k] {
      if k > 0 {
        assert r.posts[k] == rest.posts[k - 1];
      }
    }
  }

  /**
    What a dispatch posts, against the builder: the articles taken, built
    in queue order from the registry the loop started with, read a run of
    chunks, and post k carries the text rendered around chunk k; when no
    build raised, the registry the loop leaves is the one that run leaves.
  */
  predicate PostsRead(idle: seq<nat>, articles: seq<Article>, files: Registry, disk: Disk, articleSize: nat,
                      from: string, newsgroup: string, date: string, codec: Codec)
  {
    ReadAs(Drain(idle, articles, files, disk, articleSize, from, newsgroup, date, codec),
           articles, files, disk, articleSize, from, newsgroup, date, codec)
  }

  /** The posts of a dispatch result carry, in order, the chunks a run of reads from files gives. */
  predicate ReadAs(r: Drained, articles: seq<Article>, files: Registry, disk: Disk, articleSize: nat,
                   from: string, newsgroup: string, date: string, codec: Codec)
  {
    && |r.posts| <= |articles|
    && ReadParts(files, disk, articles[..|r.posts|], articleSize).Ok?
    && var t := ReadParts(files, disk, articles[..|r.posts|], articleSize).value;
       && (r.error.None? ==> r.files == t.registry)
       && Pairwise(CarriesRel(from, newsgroup, date, codec), r.posts, articles, t.chunks)
  }

  /** `Carries`, as a relation on a post, its article and its chunk. */
  function CarriesRel(from: string, newsgroup: string, date: string, codec: Codec): (Post, Article, Chunk) -> bool
  {
    (p: Post, art: Article, c: Chunk) => Carries(p, art, c, from, newsgroup, date, codec)
  }

  /** `rel` holds of post k, article k and chunk k, for every post. */
  predicate Pairwise<P, A, C>(rel: (P, A, C) -> bool, posts: seq<P>, articles: seq<A>, chunks: seq<C>)
  {
    && |posts| <= |articles| && |posts| <= |chunks|
    && forall k :: 0 <= k < |posts| ==> rel(posts[k], articles[k], chunks[k])
  }

  lemma {:induction false} DrainReads(idle: seq<nat>, articles: seq<Article>, files: Registry, disk: Disk, articleSize: nat,
                                      from: string, newsgroup: string, date: string, codec: Codec)
    ensures PostsRead(idle, articles, files, disk, articleSize, from, newsgroup, date, codec)
    decreases |idle|
  {
    if idle == [] || articles == [] {
      assert articles[..0] == [];
    } else {
      var o := Build(files, disk, articles[0], articleSize, from, newsgroup, date, codec);
      DrainStep(idle, articles, files, disk, articleSize, from, newsgroup, date, codec);
      if o.text.Err? {
        assert articles[..0] == [];
      } else {
        DrainReads(idle[1..], articles[1..], o.registry, disk, articleSize, from, newsgroup, date, codec);
        PostsReadCons(idle, articles, files, disk, articleSize, from, newsgroup, date, codec);
      }
    }
  }

  lemma PostsReadCons(idle: seq<nat>, articles: seq<Article>, files: Registry, disk: Disk, articleSize: nat,
                      from: string, newsgroup: string, date: string, codec: Codec)
    requires idle != [] && articles != []
    requires Build(files, disk, articles[0], articleSize, from, newsgroup, date, codec).text.Ok?
    requires PostsRead(idle[1..], articles[1..], Build(files, disk, articles[0], articleSize, from, newsgroup, date, codec).registry,
                       disk, articleSize, from, newsgroup, date, codec)
    ensures PostsRead(idle, articles, files, disk, articleSize, from, newsgroup, date, codec)
  {
    var o := Build(files, disk, articles[0], articleSize, from, newsgroup, date, codec);
    BuildRead(files, disk, articles[0], articleSize, from, newsgroup, date, codec);
    var b := ReadPart(files, disk, articles[0], articleSize).value;
    var first := Post(idle[0], o.text.value);
    assert Carries(first, articles[0], b.chunk, from, newsgroup, date, codec);
    var rest := Drain(idle[1..], articles[1..], b.registry, disk, articleSize, from, newsgroup, date, codec);
    DrainStep(idle, articles, files, disk, articleSize, from, newsgroup, date, codec);
    ReadAsCons(Drain(idle, articles, files, disk, articleSize, from, newsgroup, date, codec), rest, first,
               articles, files, b, disk, articleSize, from, newsgroup, date, codec);
  }

  /** Putting a post that carries the first read in front of a result read from the registry that read leaves. */
  lemma ReadAsCons(r: Drained, rest: Drained, first: Post, articles: seq<Article>, files: Registry, b: Built, disk: Disk,
                   articleSize: nat, from: string, newsgroup: string, date: string, codec: Codec)
    requires articles != [] && ReadPart(files, disk, articles[0], articleSize) == Ok(b)
    requires Carries(first, articles[0], b.chunk, from, newsgroup, date, codec)
    requires r == rest.(posts := [first] + rest.posts)
    requires ReadAs(rest, articles[1..], b.registry, disk, articleSize, from, newsgroup, date, codec)
    ensures ReadAs(r, articles, files, disk, articleSize, from, newsgroup, date, codec)
  {
    var n := |rest.posts|;
    var t2 := ReadParts(b.registry, disk, articles[1..][..n], articleSize).value;
    ReadPartsConsPrefix(files, disk, articles, n, articleSize);
    assert CarriesRel(from, newsgroup, date, codec)(first, articles[0], b.chunk);
    PairwiseCons(CarriesRel(from, newsgroup, date, codec), first, rest.posts, articles, b.chunk, t2.chunks);
  }

  /** A triple related by `rel`, in front of pairwise related sequences. */
  lemma PairwiseCons<P, A, C>(rel: (P, A, C) -> bool, first: P, posts: seq<P>, articles: seq<A>, chunk: C, chunks: seq<C>)
    requires articles != [] && rel(first, articles[0], chunk)
    requires Pairwise(rel, posts, articles[1..], chunks)
    ensures Pairwise(rel, [first] + posts, articles, [chunk] + chunks)
  {
    forall k | 0 <= k < |posts| + 1
      ensures rel(([first] + posts)[k], articles[k], ([chunk] + chunks)[k])
    {
      if k > 0 {
        assert articles[k] == articles[1..][k - 1];
        assert ([first] + posts)[k] == posts[k - 1] && ([chunk] + chunks)[k] == chunks[k - 1];
      }
    }
  }

  /**
    Two dispatch rounds against one run of reads: the articles both rounds
    took, built in queue order from the registry the first round started
    with, read a run of chunks; the first round's posts stand in `rel1` to
    the first chunks and the second round's posts in `rel2` to the next
    ones; when the second round raised nothing, its registry is the one
    that run leaves.
  */
  predicate RoundsRead(r1: Drained, r2: Drained, articles: seq<Article>, files: Registry, disk: Disk, articleSize: nat,
                       rel1: (Post, Article, Chunk) -> bool, rel2: (Post, Article, Chunk) -> bool)
  {
    && |r1.posts| + |r2.posts| <= |articles|
    && var taken := articles[..|r1.posts|] + articles[|r1.posts|..][..|r2.posts|];
       && ReadParts(files, disk, taken, articleSize).Ok?
       && RoundsCarry(r1, r2, articles, ReadParts(files, disk, taken, articleSize).value, rel1, rel2)
  }

  /** The posts of two rounds against the run of reads `t`. */
  predicate RoundsCarry(r1: Drained, r2: Drained, articles: seq<Article>, t: Trace,
                        rel1: (Post, Article, Chunk) -> bool, rel2: (Post, Article, Chunk) -> bool)
  {
    && |r1.posts| <= |t.chunks|
    && (r2.error.None? ==> r2.files == t.registry)
    && Pairwise(rel1, r1.posts, articles, t.chunks)
    && Pairwise(rel2, r2.posts, articles[|r1.posts|..], t.chunks[|r1.posts|..])
  }

  /** Each round's posts against its own run of reads give `RoundsCarry` against the two runs joined. */
  lemma RoundsCarryJoin(r1: Drained, r2: Drained, articles: seq<Article>, t1: Trace, t2: Trace,
                        rel1: (Post, Article, Chunk) -> bool, rel2: (Post, Article, Chunk) -> bool)
    requires |t1.chunks| == |r1.posts| <= |articles|
    requires r2.error.None? ==> r2.files == t2.registry
    requires Pairwise(rel1, r1.posts, articles, t1.chunks)
    requires Pairwise(rel2, r2.posts, articles[|r1.posts|..], t2.chunks)
    ensures RoundsCarry(r1, r2, articles, Trace(t2.registry, t1.chunks + t2.chunks), rel1, rel2)
  {
    assert (t1.chunks + t2.chunks)[|r1.posts|..] == t2.chunks;
    PairwiseExtend(rel1, r1.posts, articles, t1.chunks, t2.chunks);
  }

  /**
    A later dispatch round picks up where an earlier one stopped: the two
    rounds post what one run of reads over all the articles taken gives,
    each rendered with its own round's date.
  */
  lemma ReadAsResume(r1: Drained, r2: Drained, articles: seq<Article>, files: Registry, disk: Disk, articleSize: nat,
                     from: string, newsgroup: string, date1: string, date2: string, codec: Codec)
    requires r1.error.None? && ReadAs(r1, articles, files, disk, articleSize, from, newsgroup, date1, codec)
    requires ReadAs(r2, articles[|r1.posts|..], r1.files, disk, articleSize, from, newsgroup, date2, codec)
    ensures RoundsRead(r1, r2, articles, files, disk, articleSize,
                       CarriesRel(from, newsgroup, date1, codec), CarriesRel(from, newsgroup, date2, codec))
  {
    var n1, n2 := |r1.posts|, |r2.posts|;
    var t1 := ReadParts(files, disk, articles[..n1], articleSize).value;
    var t2 := ReadParts(r1.files, disk, articles[n1..][..n2], articleSize).value;
    RoundsReadOf(r1, r2, articles, files, disk, articleSize,
                 CarriesRel(from, newsgroup, date1, codec), CarriesRel(from, newsgroup, date2, codec), t1, t2);
  }

  /** `RoundsRead`, from the two runs of reads the rounds made. */
  lemma RoundsReadOf(r1: Drained, r2: Drained, articles: seq<Article>, files: Registry, disk: Disk, articleSize: nat,
                     rel1: (Post, Article, Chunk) -> bool, rel2: (Post, Article, Chunk) -> bool, t1: Trace, t2: Trace)
    requires |r1.posts| + |r2.posts| <= |articles|
    requires ReadParts(files, disk, articles[..|r1.posts|], articleSize) == Ok(t1) && r1.files == t1.registry
    requires ReadParts(r1.files, disk, articles[|r1.posts|..][..|r2.posts|], articleSize) == Ok(t2)
    requires r2.error.None? ==> r2.files == t2.registry
    requires Pairwise(rel1, r1.posts, articles, t1.chunks)
    requires Pairwise(rel2, r2.posts, articles[|r1.posts|..], t2.chunks)
    ensures RoundsRead(r1, r2, articles, files, disk, articleSize, rel1, rel2)
  {
    var q1, q2 := articles[..|r1.posts|], articles[|r1.posts|..][..|r2.posts|];
    ReadPartsAppend(files, disk, q1, q2, articleSize);
    RoundsCarryJoin(r1, r2, articles, t1, t2, rel1, rel2);
  }

  /** Related sequences stay related when more chunks follow. */
  lemma PairwiseExtend<P, A, C>(rel: (P, A, C) -> bool, posts: seq<P>, articles: seq<A>, c1: seq<C>, c2: seq<C>)
    requires Pairwise(rel, posts, articles, c1)
    ensures Pairwise(rel, posts, articles, c1 + c2)
  {
    forall k | 0 <= k < |posts| ensures rel(posts[k], articles[k], (c1 + c2)[k]) {
      assert (c1 + c2)[k] == c1[k];
    }
  }

  /**
    Two dispatch rounds, as two `Step`s make them: the second starts from
    the queue and the registry the first leaves, with whatever connections
    are idle by then. Together they take a prefix of the queue, and post
    what one run of reads over that prefix gives.
  */
  lemma DrainResume(idle1: seq<nat>, idle2: seq<nat>, articles: seq<Article>, files: Registry, disk: Disk, articleSize: nat,
                    from: string, newsgroup: string, date1: string, date2: string, codec: Codec)
    requires Drain(idle1, articles, files, disk, articleSize, from, newsgroup, date1, codec).error.None?
    ensures var r1 := Drain(idle1, articles, files, disk, articleSize, from, newsgroup, date1, codec);
      var r2 := Drain(idle2, r1.articles, r1.files, disk, articleSize, from, newsgroup, date2, codec);
      && RoundsRead(r1, r2, articles, files, disk, articleSize,
                    CarriesRel(from, newsgroup, date1, codec), CarriesRel(from, newsgroup, date2, codec))
      && r1.articles == articles[|r1.posts|..]
  {
    var r1 := Drain(idle1, articles, files, disk, articleSize, from, newsgroup, date1, codec);
    DrainPairs(idle1, articles, files, disk, articleSize, from, newsgroup, date1, codec);
    DrainReads(idle1, articles, files, disk, articleSize, from, newsgroup, date1, codec);
    DrainReads(idle2, r1.articles, r1.files, disk, articleSize, from, newsgroup, date2, codec);
    ReadAsResume(r1, Drain(idle2, r1.articles, r1.files, disk, articleSize, from, newsgroup, date2, codec),
                 articles, files, disk, articleSize, from, newsgroup, date1, date2, codec);
  }

  /** A dispatch raises nothing when every article's file can be opened and every subject fills. */
  lemma {:induction false} DrainSucceeds(idle: seq<nat>, articles: seq<Article>, files: Registry, disk: Disk, articleSize: nat,
                                         from: string, newsgroup: string, date: string, codec: Codec)
    requires forall k :: 0 <= k < |articles| ==>
      articles[k].info.filepath in disk && Interpolate(articles[k].subject, Decimal(articles[k].partnum), false).Ok?
    ensures Drain(idle, articles, files, disk, articleSize, from, newsgroup, date, codec).error.None?
    decreases |idle|
  {
    if idle != [] && articles != [] {
      DrainStep(idle, articles, files, disk, articleSize, from, newsgroup, date, codec);
      var o := Build(files, disk, articles[0], articleSize, from, newsgroup, date, codec);
      forall k | 0 <= k < |articles[1..]|
        ensures articles[1..][k].info.filepath in disk
        ensures Interpolate(articles[1..][k].subject, Decimal(articles[1..][k].partnum), false).Ok?
      {
        assert articles[1..][k] == articles[k + 1];
      }
      DrainSucceeds(idle[1..], articles[1..], o.registry, disk, articleSize, from, newsgroup, date, codec);
    }
  }

  /** The `=ypart` line of a rendered article gives its chunk's bounds, and its body is the chunk encoded. */
  lemma RenderedWindow(post: Post, art: Article, chunk: Chunk, from: string, newsgroup: string, date: string, codec: Codec)
    requires Carries(post, art, chunk, from, newsgroup, date, codec)
    ensures |post.lines| == 11
    ensures ParseYPart(post.lines[7]) == Some(YPart(chunk.begin, chunk.end))
    ensures post.lines[8] == codec.encode(chunk.data)
  {
    var subject := Interpolate(art.subject, Decimal(art.partnum), false).value;
    YPartFraming(from, newsgroup, date, subject, art.partnum, art.info.parts, art.info.filesize, art.info.filename,
                 chunk.begin, chunk.end, codec.encode(chunk.data), codec.crc32(chunk.data));
  }

  /**
    Post `post` of article `art` went out on connection `conn`, its
    `=ypart` line names exactly the window of the article's part, and its
    body encodes that window's bytes.
  */
  predicate PostedWindow(post: Post, art: Article, conn: nat, disk: Disk, articleSize: nat, codec: Codec)
  {
    && art.partnum >= 1 && art.info.filepath in disk && |post.lines| == 11
    && var w := Window(disk[art.info.filepath], articleSize, art.partnum - 1);
    && post.conn == conn
    && ParseYPart(post.lines[7]) == Some(YPart(w.begin, w.end))
    && post.lines[8] == codec.encode(w.data)
  }

  /**
    Dispatch result `r` of queue `q` over the connections `idle`: nothing
    raised, every article was posted, article k on the k-th idle
    connection with its window, and no file is left open.
  */
  predicate PostedWindows(q: seq<Article>, r: Drained, disk: Disk, articleSize: nat, idle: seq<nat>, codec: Codec)
  {
    && |idle| >= |q|
    && r.error.None? && r.articles == [] && r.files == map[] && |r.posts| == |q|
    && forall k :: 0 <= k < |q| ==> PostedWindow(r.posts[k], q[k], idle[k], disk, articleSize, codec)
  }

  /** Draining queue `q` over the connections `idle`, from an empty registry, posts every article with its window. */
  predicate PostsWindows(q: seq<Article>, disk: Disk, articleSize: nat, idle: seq<nat>,
                         from: string, newsgroup: string, date: string, codec: Codec)
  {
    PostedWindows(q, Drain(idle, q, map[], disk, articleSize, from, newsgroup, date, codec), disk, articleSize, idle, codec)
  }

  /** Posts that carry the text rendered around the windows of their articles post those windows. */
  lemma WindowsPosted(q: seq<Article>, r: Drained, chunks: seq<Chunk>, disk: Disk, articleSize: nat, idle: seq<nat>,
                      from: string, newsgroup: string, date: string, codec: Codec)
    requires |idle| >= |q| && r.error.None? && r.articles == [] && r.files == map[] && |r.posts| == |q|
    requires ReadsAsWindows(q, chunks, disk, articleSize)
    requires forall k :: 0 <= k < |q| ==> r.posts[k].conn == idle[k]
    requires Pairwise(CarriesRel(from, newsgroup, date, codec), r.posts, q, chunks)
    ensures PostedWindows(q, r, disk, articleSize, idle, codec)
  {
    forall k | 0 <= k < |q| ensures PostedWindow(r.posts[k], q[k], idle[k], disk, articleSize, codec) {
      assert CarriesRel(from, newsgroup, date, codec)(r.posts[k], q[k], chunks[k]);
      assert PartReadsAsWindow(q[k], chunks[k], disk, articleSize);
      RenderedWindow(r.posts[k], q[k], chunks[k], from, newsgroup, date, codec);
    }
  }

  /** A queue of scheduled articles that builds cleanly drains without raising. */
  lemma QueueDrainsCleanly(q: seq<Article>, disk: Disk, articleSize: nat, idle: seq<nat>,
                           from: string, newsgroup: string, date: string, codec: Codec)
    requires AllScheduled(q, articleSize) && QueueReads(q, disk, articleSize)
    ensures Drain(idle, q, map[], disk, articleSize, from, newsgroup, date, codec).error.None?
  {
    var t := ReadParts(map[], disk, q, articleSize).value;
    forall k | 0 <= k < |q|
      ensures q[k].info.filepath in disk && Interpolate(q[k].subject, Decimal(q[k].partnum), false).Ok?
    {
      assert Scheduled(q[k], articleSize);
      assert PartReadsAsWindow(q[k], t.chunks[k], disk, articleSize);
    }
    DrainSucceeds(idle, q, map[], disk, articleSize, from, newsgroup, date, codec);
  }

  /**
    Posting a queue of scheduled articles with at least as many idle
    connections as articles, from an empty registry, when the queue builds
    cleanly: nothing raises, every article is posted, on the idle
    connections in order, article k's `=ypart` line names exactly the
    window of its part and its body encodes that window's bytes, and no
    file is left open.
  */
  lemma QueuePostsWindows(q: seq<Article>, disk: Disk, articleSize: nat, idle: seq<nat>,
                          from: string, newsgroup: string, date: string, codec: Codec)
    requires AllScheduled(q, articleSize) && QueueReads(q, disk, articleSize) && |idle| >= |q|
    ensures PostsWindows(q, disk, articleSize, idle, from, newsgroup, date, codec)
  {
    QueueDrainsCleanly(q, disk, articleSize, idle, from, newsgroup, date, codec);
    DrainPairs(idle, q, map[], disk, articleSize, from, newsgroup, date, codec);
    DrainReads(idle, q, map[], disk, articleSize, from, newsgroup, date, codec);
    var r := Drain(idle, q, map[], disk, articleSize, from, newsgroup, date, codec);
    assert q[..|r.posts|] == q;
    var t := ReadParts(map[], disk, q, articleSize).value;
    WindowsPosted(q, r, t.chunks, disk, articleSize, idle, from, newsgroup, date, codec);
  }

  /**
    Posting a whole scan with at least as many idle connections as
    articles, from an empty registry, with every file still on disk as
    scanned: the queue the scan built is posted in full, each part
    carrying exactly its window of its file, and no file is left open.
  */
  lemma ScanPostsWindows(dirs: seq<string>, fs: Listings, disk: Disk, articleSize: nat, idle: seq<nat>,
                         from: string, newsgroup: string, date: string, codec: Codec)
    requires articleSize > 0
    requires AllOnDisk(Schedule(dirs, fs, articleSize).articles, disk)
    requires |idle| >= |Schedule(dirs, fs, articleSize).articles|
    ensures PostsWindows(Schedule(dirs, fs, articleSize).articles, disk, articleSize, idle, from, newsgroup, date, codec)
  {
    ScanScheduled(dirs, |dirs|, fs, articleSize);
    ScanReads(dirs, |dirs|, fs, disk, articleSize);
    QueuePostsWindows(Schedule(dirs, fs, articleSize).articles, disk, articleSize, idle, from, newsgroup, date, codec);
  }

  // ---------------------------------------------------------------------
  // The poster

  class Poster {
    /** `conf['server']['connections']`. */
    const connections: nat
    /** `conf['posting']['article_size']`. */
    const articleSize: nat
    /** `conf['posting']['from']`. */
    const from: string
    const newsgroup: string
    const codec: Codec

    /** `self._articles`: the FIFO queue of work. */
    var articles: seq<Article>
    /** `self._idle`: the idle connections, by number, oldest first. */
    var idle: seq<nat>
    /** `self._files`: the open files, by path. */
    var files: Registry
    /** `last_reconnect`. */
    var lastReconnect: real
    /** The `do_connect` calls made, by connection number, in order. */
    var connects: seq<nat>
    /** The `post_article` calls made, in order. */
    var posted: seq<Post>

    /** Every article ever appended to the queue, and every article popped from it. */
    ghost var queued: seq<Article>
    ghost var taken: seq<Article>

    /** The queue is FIFO: what was popped, followed by what waits, is what was appended. */
    ghost predicate Valid()
      reads this
    {
      articleSize > 0 && queued == taken + articles
    }

    constructor (connections: nat, articleSize: nat, from: string, newsgroup: string, codec: Codec)
      requires articleSize > 0
      ensures Valid()
      ensures this.connections == connections && this.articleSize == articleSize
      ensures this.from == from && this.newsgroup == newsgroup && this.codec == codec
      ensures articles == [] && idle == [] && files == map[] && connects == [] && posted == []
      ensures queued == [] && taken == [] && lastReconnect == 0.0
    {
      this.connections := connections;
      this.articleSize := articleSize;
      this.from := from;
      this.newsgroup := newsgroup;
      this.codec := codec;
      articles := [];
      idle := [];
      files := map[];
      lastReconnect := 0.0;
      connects := [];
      posted := [];
      queued := [];
      taken := [];
    }

    /**
      `generate_article_list`: append the articles of each directory in
      turn; a directory that cannot be listed ends the scan with the
      articles of the directories before it already queued.
    */
    method GenerateArticleList(dirs: seq<string>, fs: Listings) returns (failed: Option<string>)
      requires Valid()
      modifies this`articles, this`queued
      ensures Valid()
      ensures articles == old(articles) + Schedule(dirs, fs, articleSize).articles
      ensures failed == Schedule(dirs, fs, articleSize).failed
    {
      failed := None;
      var d := 0;
      while d < |dirs|
        invariant 0 <= d <= |dirs| && Valid() && failed == None
        invariant ScanFirst(dirs, d, DirStep(fs, articleSize)).failed == None
        invariant articles == old(articles) + ScanFirst(dirs, d, DirStep(fs, articleSize)).articles
      {
        failed := ScanDirectory(dirs, d, fs, old(articles));
        if failed.Some? {
          return;
        }
        d := d + 1;
      }
    }

    /**
      The turn of `generate_article_list`'s loop for directory d, once the
      first d directories are queued: the scan either moves past directory d
      or ends there with that directory's name.
    */
    method ScanDirectory(dirs: seq<string>, d: nat, fs: Listings, ghost base: seq<Article>) returns (failed: Option<string>)
      requires Valid() && d < |dirs|
      requires ScanFirst(dirs, d, DirStep(fs, articleSize)).failed == None
      requires articles == base + ScanFirst(dirs, d, DirStep(fs, articleSize)).articles
      modifies this`articles, this`queued
      ensures Valid()
      ensures failed.None? ==> ScanFirst(dirs, d + 1, DirStep(fs, articleSize)).failed == None
      ensures failed.None? ==> articles == base + ScanFirst(dirs, d + 1, DirStep(fs, articleSize)).articles
      ensures failed.Some? ==> failed == Schedule(dirs, fs, articleSize).failed
      ensures failed.Some? ==> articles == base + Schedule(dirs, fs, articleSize).articles
    {
      ghost var prev := ScanFirst(dirs, d, DirStep(fs, articleSize)).articles;
      failed := AppendDirectory(dirs[d], fs);
      ScheduleNext(dirs, d, fs, articleSize);
      if failed.None? {
        ConcatAssociative(base, prev, DirSchedule(dirs[d], fs, articleSize).value);
      }
    }

    /**
      One turn of the loop over directories: trim one trailing separator,
      skip an empty name, list the directory, keep its non-empty regular
      files, sort them by name and append their articles.
    */
    method AppendDirectory(d: string, fs: Listings) returns (failed: Option<string>)
      requires Valid()
      modifies this`articles, this`queued
      ensures Valid()
      ensures DirSchedule(d, fs, articleSize).Err? ==>
        failed == Some(DirSchedule(d, fs, articleSize).error) && articles == old(articles)
      ensures DirSchedule(d, fs, articleSize).Ok? ==>
        failed == None && articles == old(articles) + DirSchedule(d, fs, articleSize).value
    {
      var dirname := d;
      if |dirname| > 0 && dirname[|dirname| - 1] == SEP {
        dirname := dirname[..|dirname| - 1];
      }
      assert dirname == TrimSep(d);
      if dirname == [] {
        assert articles + [] == articles;
        return None;
      }
      if dirname !in fs {
        return Some(dirname);
      }
      var kept := KeepPostable(fs[dirname]);
      var sorted := SortByName(kept);
      AppendFiles(dirname, sorted);
      failed := None;
    }

    /** The filter over a directory listing: regular files with a non-zero size, in listing order. */
    method KeepPostable(listing: seq<Entry>) returns (kept: seq<Entry>)
      ensures kept == Retained(listing)
    {
      kept := [];
      var i := 0;
      while i < |listing|
        invariant 0 <= i <= |listing| && kept == Retained(listing[..i])
      {
        assert listing[..i + 1][..i] == listing[..i];
        if listing[i].isFile && listing[i].size > 0 {
          kept := kept + [listing[i]];
        }
        i := i + 1;
      }
      assert listing[..i] == listing;
    }

    /** The loop over one directory's sorted files, numbering them from 1. */
    method AppendFiles(dirname: string, sorted: seq<Entry>)
      requires Valid()
      modifies this`articles, this`queued
      ensures Valid()
      ensures articles == old(articles) + FilesArticles(dirname, sorted, |sorted|, articleSize)
    {
      var n := 1;
      var j := 0;
      while j < |sorted|
        invariant 0 <= j <= |sorted| && n == j + 1 && Valid()
        invariant articles == old(articles) + FilesArticles(dirname, sorted[..j], |sorted|, articleSize)
      {
        var e := sorted[j];
        var filepath := Join(dirname, e.name);
        var filesize := e.size;
        var parts := CountParts(filesize);
        var filenum := PaddedDecimal(n, |Decimal(|sorted|)|);
        var subject := SubjectTemplate(dirname, filenum, |sorted|, e.name, parts);
        var info := FileInfo(e.name, filepath, filesize, parts);
        AppendParts(info, subject);
        FilesArticlesNext(dirname, sorted, j, |sorted|, articleSize, info, subject);
        ConcatAssociative(old(articles), FilesArticles(dirname, sorted[..j], |sorted|, articleSize), FileArticles(info, subject));
        j := j + 1;
        n := n + 1;
      }
      assert sorted[..j] == sorted;
    }

    /** `divmod(filesize, articleSize)`, plus one part for a remainder. */
    method CountParts(filesize: nat) returns (parts: nat)
      requires Valid()
      ensures parts == PartCount(filesize, articleSize)
    {
      DivModParts(filesize, articleSize);
      var full, partial := filesize / articleSize, filesize % articleSize;
      parts := if partial != 0 then full + 1 else full;
    }

    /** The innermost loop: parts 1..parts of one file, appended in ascending order. */
    method AppendParts(info: FileInfo, subject: string)
      requires Valid()
      modifies this`articles, this`queued
      ensures Valid()
      ensures articles == old(articles) + FileArticles(info, subject)
    {
      var p := 0;
      while p < info.parts
        invariant 0 <= p <= info.parts && Valid()
        invariant articles == old(articles) + FileArticles(info, subject)[..p]
      {
        assert FileArticles(info, subject)[..p + 1] == FileArticles(info, subject)[..p] + [Article(info, subject, p + 1)];
        articles := articles + [Article(info, subject, p + 1)];
        queued := queued + [Article(info, subject, p + 1)];
        p := p + 1;
      }
      assert FileArticles(info, subject)[..p] == FileArticles(info, subject);
    }

    /**
      `build_article`: the read from the file, then the text written into
      a fresh buffer.
    */
    method BuildArticle(art: Article, disk: Disk, date: string) returns (text: Result<seq<string>, BuildError>)
      requires articleSize > 0
      modifies this`files
      ensures files == Build(old(files), disk, art, articleSize, from, newsgroup, date, codec).registry
      ensures text == Build(old(files), disk, art, articleSize, from, newsgroup, date, codec).text
    {
      var chunk := ReadChunk(art, disk);
      if chunk.Err? {
        return Err(chunk.error);
      }
      text := WriteArticle(art, chunk.value, date);
    }

    /**
      The file side of `build_article`: find or open the file, read one
      article's worth, and close and forget the handle after the last part.
    */
    method ReadChunk(art: Article, disk: Disk) returns (chunk: Result<Chunk, BuildError>)
      modifies this`files
      ensures var r := ReadPart(old(files), disk, art, articleSize);
        && (r.Err? ==> chunk == Err(r.error) && files == old(files))
        && (r.Ok? ==> chunk == Ok(r.value.chunk) && files == r.value.registry)
    {
      var path := art.info.filepath;
      var f: Handle;
      if path in files {
        f := files[path];
      } else if path in disk {
        f := Handle(disk[path], 0);
        files := files[path := f];
      } else {
        return Err(CannotOpen(path));
      }
      var begin := f.offset;
      var (f', data) := Read(f, articleSize);
      files := files[path := f'];
      var end := f'.offset;
      if art.partnum == art.info.parts {
        files := files - {path};
      }
      chunk := Ok(Chunk(begin, end, data));
    }

    /** The text side of `build_article`: the headers, the yEnc envelope around the body, and the end-of-data line. */
    method WriteArticle(art: Article, chunk: Chunk, date: string) returns (text: Result<seq<string>, BuildError>)
      requires chunk.begin <= chunk.end
      ensures text == Render(art, chunk, from, newsgroup, date, codec)
    {
      var subject := Interpolate(art.subject, Decimal(art.partnum), false);
      if subject.Err? {
        return Err(BadSubject(subject.error));
      }
      var out := [];
      out := out + [HeaderLine("From", from)];
      out := out + [HeaderLine("Newsgroups", newsgroup)];
      out := out + [HeaderLine("Date", date + " UTC")];
      out := out + [HeaderLine("Subject", subject.value)];
      out := out + [HeaderLine("X-Newsposter", NEWSPOSTER)];
      out := out + [CRLF];
      out := out + [YBeginLine(art.partnum, art.info.parts, art.info.filesize, art.info.filename)];
      out := out + [YPartLine(chunk.begin, chunk.end)];
      out := out + [codec.encode(chunk.data)];
      out := out + [YEndLine(chunk.end - chunk.begin, art.partnum, codec.crc32(chunk.data))];
      out := out + [END_OF_DATA];
      assert out == ArticleLines(from, newsgroup, date, subject.value, art.partnum, art.info.parts, art.info.filesize,
                                 art.info.filename, chunk.begin, chunk.end, codec.encode(chunk.data), codec.crc32(chunk.data));
      text := Ok(out);
    }

    /** The reconnect sweep: `do_connect` on every disconnected connection whose time has come. */
    method Reconnect(now: real, conns: seq<Connection>)
      modifies this`connects
      ensures connects == old(connects) + Due(conns, now)
    {
      var i := 0;
      while i < |conns|
        invariant 0 <= i <= |conns|
        invariant connects == old(connects) + Due(conns[..i], now)
      {
        assert conns[..i + 1][..i] == conns[..i];
        if conns[i].disconnected && now >= conns[i].reconnectAt {
          connects := connects + [i];
        }
        i := i + 1;
      }
      assert conns[..i] == conns;
    }

    /** The dispatch loop: pair the head of the idle list with the head of the queue until one runs out. */
    method Dispatch(disk: Disk, date: string) returns (err: Option<BuildError>)
      requires Valid()
      modifies this`idle, this`articles, this`files, this`posted, this`taken
      ensures Valid()
      ensures var r := Drain(old(idle), old(articles), old(files), disk, articleSize, from, newsgroup, date, codec);
        && idle == r.idle && articles == r.articles && files == r.files
        && posted == old(posted) + r.posts && err == r.error
    {
      err := None;
      ghost var r0 := Drain(idle, articles, files, disk, articleSize, from, newsgroup, date, codec);
      while idle != [] && articles != []
        invariant Valid()
        invariant var r := Drain(idle, articles, files, disk, articleSize, from, newsgroup, date, codec);
          && r.idle == r0.idle && r.articles == r0.articles && r.files == r0.files && r.error == r0.error
          && old(posted) + r0.posts == posted + r.posts
        decreases |idle|
      {
        ghost var idle0, articles0, files0, posted0 := idle, articles, files, posted;
        var text := PostNext(disk, date);
        DrainStep(idle0, articles0, files0, disk, articleSize, from, newsgroup, date, codec);
        if text.Err? {
          err := Some(text.error);
          return;
        }
        ConcatAssociative(posted0, [Post(idle0[0], text.value)], Drain(idle, articles, files, disk, articleSize, from, newsgroup, date, codec).posts);
      }
      assert posted + [] == posted;
    }

    /** One turn of the dispatch loop: pop an idle connection and an article, build it, post it on that connection. */
    method PostNext(disk: Disk, date: string) returns (text: Result<seq<string>, BuildError>)
      requires Valid() && idle != [] && articles != []
      modifies this`idle, this`articles, this`files, this`posted, this`taken
      ensures Valid()
      ensures var o := Build(old(files), disk, old(articles)[0], articleSize, from, newsgroup, date, codec);
        && idle == old(idle)[1..] && articles == old(articles)[1..] && files == o.registry && text == o.text
        && posted == old(posted) + (if o.text.Ok? then [Post(old(idle)[0], o.text.value)] else [])
      ensures taken == old(taken) + [old(articles)[0]]
    {
      var conn := idle[0];
      var art := articles[0];
      ghost var o := Build(files, disk, art, articleSize, from, newsgroup, date, codec);
      idle := idle[1..];
      assert articles == [art] + articles[1..];
      ConcatAssociative(taken, [art], articles[1..]);
      articles := articles[1..];
      taken := taken + [art];
      text := BuildArticle(art, disk, date);
      assert files == o.registry && text == o.text;
      if text.Ok? {
        posted := posted + [Post(conn, text.value)];
      }
    }

    /**
      A connection that has finished its work appends itself to `_idle`;
      the newest idle connection waits behind the others.
    */
    method BecomeIdle(conn: nat)
      modifies this`idle
      ensures idle == old(idle) + [conn]
    {
      idle := idle + [conn];
    }

    /** The completion test: nothing queued, and every connection idle. */
    predicate Done()
      reads this
    {
      articles == [] && |idle| == connections
    }

    /**
      The start of `post`: build the queue, then create the configured
      number of connections and `do_connect` each, numbered from 0.
    */
    method Start(dirs: seq<string>, fs: Listings, now: real) returns (failed: Option<string>)
      requires Valid()
      modifies this`articles, this`queued, this`connects, this`lastReconnect
      ensures Valid()
      ensures articles == old(articles) + Schedule(dirs, fs, articleSize).articles
      ensures failed == Schedule(dirs, fs, articleSize).failed
      ensures failed.None? ==> connects == old(connects) + seq(connections, i => i) && lastReconnect == now
      ensures failed.Some? ==> connects == old(connects) && lastReconnect == old(lastReconnect)
    {
      failed := GenerateArticleList(dirs, fs);
      if failed.Some? {
        return;
      }
      var i := 0;
      while i < connections
        invariant 0 <= i <= connections && Valid()
        invariant connects == old(connects) + seq(i, k => k)
        invariant articles == old(articles) + Schedule(dirs, fs, articleSize).articles
      {
        assert seq(i + 1, k => k) == seq(i, k => k) + [i];
        connects := connects + [i];
        i := i + 1;
      }
      lastReconnect := now;
    }

    /**
      One pass of the event loop after the poll: the reconnect sweep when
      at least a second has passed since the last one, then the dispatch
      loop, then the completion test. A build that raises ends `post`.
    */
    method Step(now: real, conns: seq<Connection>, disk: Disk, date: string) returns (done: bool, err: Option<BuildError>)
      requires Valid()
      modifies this`lastReconnect, this`connects, this`idle, this`articles, this`files, this`posted, this`taken
      ensures Valid()
      ensures old(now - lastReconnect >= 1.0) ==> lastReconnect == now && connects == old(connects) + Due(conns, now)
      ensures old(now - lastReconnect < 1.0) ==> lastReconnect == old(lastReconnect) && connects == old(connects)
      ensures var r := Drain(old(idle), old(articles), old(files), disk, articleSize, from, newsgroup, date, codec);
        && idle == r.idle && articles == r.articles && files == r.files
        && posted == old(posted) + r.posts && err == r.error
      ensures done <==> err.None? && Done()
      ensures done ==> taken == queued
    {
      if now - lastReconnect >= 1.0 {
        lastReconnect := now;
        Reconnect(now, conns);
      }
      err := Dispatch(disk, date);
      done := err.None? && articles == [] && |idle| == connections;
    }
  }
}
