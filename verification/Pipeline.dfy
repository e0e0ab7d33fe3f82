/** The migration loop: batches, the fall-back to single fetches, and the accounting that
    every listed message ends up written or reported. */
module Pipeline {
  import opened Wrappers
  import opened FolderTree

  datatype Meta = Meta(uid: nat, size: nat)

  /** A folder as the server lists it. */
  datatype Source = Source(name: string, fullName: string, delimiter: Option<char>, selectable: bool) {
    function Path(): seq<string> { Parts(fullName, delimiter) }
  }

  /** Everything outside: the server, the spool, the parser and the writer may answer
      anything, and differently each time, so each answer may depend on a clock. */
  datatype World = World(
    list: (nat, string) -> Result<seq<Meta>>,
    spooled: (nat, string, nat) -> string,
    fetchBatch: (nat, string, seq<nat>) -> Result<seq<string>>,
    fetchOne: (nat, string, nat) -> Result<string>,
    store: (nat, nat, string) -> Result<nat>)

  /** A message: its folder and its UID. */
  type Message = (string, nat)

  function Messages(folder: string, metas: seq<Meta>): (ms: seq<Message>)
    ensures |ms| == |metas| && forall i :: 0 <= i < |ms| ==> ms[i] == (folder, metas[i].uid)
  {
    seq(|metas|, i requires 0 <= i < |metas| => (folder, metas[i].uid))
  }

  function Bytes(metas: seq<Meta>): nat {
    if metas == [] then 0 else Bytes(metas[..|metas| - 1]) + metas[|metas| - 1].size
  }

  /** What a batch starting at `start` should be: in order, of at most `size` messages, of
      at most `bytes` bytes when it holds more than one, and no shorter than need be. */
  predicate GoodBatch(metas: seq<Meta>, start: nat, size: nat, bytes: nat, batch: seq<Meta>) {
    && start + |batch| <= |metas| && batch == metas[start..start + |batch|] && |batch| <= size
    && (|batch| >= 2 ==> Bytes(batch) <= bytes)
    && (start + |batch| == |metas| || |batch| == size
        || (batch != [] && Bytes(batch) + metas[start + |batch|].size > bytes))
  }

  /** Every batch makes progress, as long as the size is at least one. */
  lemma BatchProgress(metas: seq<Meta>, start: nat, size: nat, bytes: nat, batch: seq<Meta>)
    requires GoodBatch(metas, start, size, bytes, batch) && start < |metas|
    ensures batch == [] <==> size == 0
  {
  }

  method TakeBatch(metas: seq<Meta>, start: nat, size: nat, limit: nat) returns (batch: seq<Meta>)
    requires start <= |metas|
    ensures GoodBatch(metas, start, size, limit, batch)
  {
    batch := [];
    var bytes := 0;
    while start + |batch| < |metas| && |batch| < size
      invariant start + |batch| <= |metas| && batch == metas[start..start + |batch|] && |batch| <= size
      invariant bytes == Bytes(batch) && (|batch| >= 2 ==> bytes <= limit)
      decreases |metas| - |batch|
    {
      var m := metas[start + |batch|];
      if |batch| != 0 && bytes + m.size > limit {
        break;
      }
      bytes := bytes + m.size;
      assert (batch + [m])[..|batch|] == batch;
      batch := batch + [m];
    }
  }

  /** The messages of a batch that carry a mark. */
  function Marked(ms: seq<Message>, marks: seq<bool>): seq<Message>
    requires |marks| == |ms|
  {
    if ms == [] then []
    else
      var n := |ms| - 1;
      Marked(ms[..n], marks[..n]) + if marks[n] then [ms[n]] else []
  }

  lemma MarkedSnoc(ms: seq<Message>, marks: seq<bool>, i: nat)
    requires |marks| == |ms| && i < |ms|
    ensures Marked(ms[..i + 1], marks[..i + 1]) == Marked(ms[..i], marks[..i]) + if marks[i] then [ms[i]] else []
  {
    assert ms[..i + 1][..i] == ms[..i] && marks[..i + 1][..i] == marks[..i];
  }

  lemma {:induction false} MarkedNone(ms: seq<Message>, marks: seq<bool>)
    requires |marks| == |ms| && forall i :: 0 <= i < |marks| ==> !marks[i]
    ensures Marked(ms, marks) == []
  {
    if ms != [] { MarkedNone(ms[..|ms| - 1], marks[..|ms| - 1]); }
  }

  lemma {:induction false} MarkedSet(ms: seq<Message>, marks: seq<bool>, i: nat)
    requires |marks| == |ms| && i < |ms| && !marks[i]
    ensures multiset(Marked(ms, marks[i := true])) == multiset(Marked(ms, marks)) + multiset{ms[i]}
  {
    var n := |ms| - 1;
    if i < n {
      assert marks[i := true][..n] == marks[..n][i := true];
      MarkedSet(ms[..n], marks[..n], i);
    } else {
      assert marks[i := true][..n] == marks[..n];
    }
  }

  /** What a batch command brings: an answer for each message, or nothing if it fails. */
  function Together(world: World, clock: nat, folder: string, wanted: seq<Meta>): seq<string> {
    match world.fetchBatch(clock, folder, seq(|wanted|, k requires 0 <= k < |wanted| => wanted[k].uid))
    case Ok(bodies) => bodies
    case Err(_) => seq(|wanted|, _ => "")
  }

  // ------------------------------------------------------------ the ledger

  /** The same messages, each as often. */
  ghost predicate SameBag(a: seq<Message>, b: seq<Message>) { multiset(a) == multiset(b) }

  /** Together the lists are all the messages, each as often as it stands there. */
  ghost predicate Split(written: seq<Message>, reported: seq<Message>, all: seq<Message>) {
    multiset(written) + multiset(reported) == multiset(all)
  }

  /** The same, with some reported before. */
  ghost predicate Ledger(written: seq<Message>, reported: seq<Message>, before: seq<Message>, all: seq<Message>) {
    multiset(written) + multiset(reported) + multiset(before) == multiset(all)
  }

  lemma EmptyBags()
    ensures Split([], [], []) && Ledger([], [], [], []) && SameBag([], [])
  {
  }

  lemma LedgerWritten(w: seq<Message>, r: seq<Message>, b: seq<Message>, all: seq<Message>, m: Message)
    requires Ledger(w, r, b, all)
    ensures Ledger(w + [m], r, b, all + [m]) && Ledger(w, r + [m], b, all + [m]) && Ledger(w, r, b + [m], all + [m])
  {
  }

  lemma BagMarked(r: seq<Message>, ms: seq<Message>, marks: seq<bool>, i: nat)
    requires |marks| == |ms| && i < |ms| && !marks[i] && SameBag(r, Marked(ms, marks))
    ensures SameBag(r + [ms[i]], Marked(ms, marks[i := true]))
  {
    hide Marked;
    MarkedSet(ms, marks, i);
  }

  lemma BagNone(ms: seq<Message>, marks: seq<bool>)
    requires |marks| == |ms| && forall i :: 0 <= i < |marks| ==> !marks[i]
    ensures SameBag([], Marked(ms, marks))
  {
    MarkedNone(ms, marks);
  }

  lemma Balance(w: seq<Message>, f: seq<Message>, l: seq<Message>, f1: seq<Message>, marked: seq<Message>, w2: seq<Message>,
                f2: seq<Message>, ms: seq<Message>)
    requires Split(w, f, l) && SameBag(f1, marked) && Ledger(w2, f2, marked, ms)
    ensures Split(w + w2, f + f1 + f2, l + ms)
  {
  }

  class Pipeline {
    const world: World
    const batchSize: nat
    const batchBytes: nat
    const spooling: bool

    var clock: nat
    var tree: seq<Folder>
    var byPath: map<string, nat>

    var folders: nat
    var messages: nat
    var failed: nat
    var reused: nat
    var fetchedBytes: nat
    var attachments: nat
    var failedUids: seq<Message>

    ghost var written: seq<Message>
    ghost var listed: seq<Message>
    ghost var batches: seq<seq<Meta>>

    /** Every message listed so far is written or reported, once for each time it was
        listed, and the counters agree. */
    ghost predicate Balanced()
      reads this
    {
      && messages == |written| && failed == |failedUids|
      && Split(written, failedUids, listed)
    }

    constructor (world: World, batchSize: nat, batchBytes: nat, spooling: bool)
      requires batchSize >= 1
      ensures Balanced() && listed == [] && this.batchSize == batchSize && TableOk(tree, byPath)
    {
      this.world, this.batchSize, this.batchBytes, this.spooling := world, batchSize, batchBytes, spooling;
      clock, tree, byPath := 0, [Folder(0, "")], map[];
      folders, messages, failed, reused, fetchedBytes, attachments := 0, 0, 0, 0, 0, 0;
      failedUids, written, listed, batches := [], [], [], [];
    }

    /** Serves a batch from the spool: what is there, and what is still wanted. */
    method FromSpool(folder: string, batch: seq<Meta>) returns (raws: seq<string>, wanted: seq<Meta>, wantedAt: seq<nat>)
      modifies `clock, `reused
      ensures |raws| == |batch| && |wanted| == |wantedAt| <= |batch|
      ensures forall k :: 0 <= k < |wanted| ==> wantedAt[k] < |batch| && wanted[k] == batch[wantedAt[k]] && raws[wantedAt[k]] == ""
      ensures forall j, k :: 0 <= j < k < |wantedAt| ==> wantedAt[j] < wantedAt[k]
      ensures forall i :: 0 <= i < |batch| && raws[i] == "" ==> i in wantedAt
    {
      raws := seq(|batch|, _ => "");
      wanted, wantedAt := [], [];
      for i := 0 to |batch|
        invariant |raws| == |batch| && |wanted| == |wantedAt| <= i
        invariant forall k :: i <= k < |batch| ==> raws[k] == ""
        invariant forall k :: 0 <= k < |wanted| ==> wantedAt[k] < i && wanted[k] == batch[wantedAt[k]] && raws[wantedAt[k]] == ""
        invariant forall j, k :: 0 <= j < k < |wantedAt| ==> wantedAt[j] < wantedAt[k]
        invariant forall j :: 0 <= j < i && raws[j] == "" ==> j in wantedAt
      {
        if spooling {
          var cached := world.spooled(clock, folder, batch[i].uid);
          clock := clock + 1;
          if cached != "" {
            raws := raws[i := cached];
            reused := reused + 1;
            continue;
          }
        }
        wanted := wanted + [batch[i]];
        wantedAt := wantedAt + [i];
      }
    }

    /** One message by itself. */
    method FetchSingle(folder: string, uid: nat) returns (r: Result<string>)
      modifies `clock
      ensures clock == old(clock) + 1 && r == world.fetchOne(old(clock), folder, uid)
    {
      r := world.fetchOne(clock, folder, uid);
      clock := clock + 1;
    }

    /** What a batch command brings; nothing if it fails. */
    method FetchTogether(folder: string, wanted: seq<Meta>) returns (got: seq<string>)
      modifies `clock
      ensures clock == old(clock) + 1 && got == Together(world, old(clock), folder, wanted)
    {
      got := Together(world, clock, folder, wanted);
      clock := clock + 1;
    }

    /** Asks the server for what is wanted, as one batch, and one by one for whatever the
        batch did not bring. A message that cannot be had is reported and marked. */
    method FetchWanted(folder: string, batch: seq<Meta>, cached: seq<string>, wanted: seq<Meta>, wantedAt: seq<nat>)
      returns (raws: seq<string>, accounted: seq<bool>, ghost reported: seq<Message>)
      requires |cached| == |batch| && |wanted| == |wantedAt| && failed == |failedUids|
      requires forall k :: 0 <= k < |wanted| ==> wantedAt[k] < |batch| && wanted[k] == batch[wantedAt[k]]
      requires forall k :: 0 <= k < |wanted| ==> cached[wantedAt[k]] == ""
      requires forall j, k :: 0 <= j < k < |wantedAt| ==> wantedAt[j] < wantedAt[k]
      modifies `clock, `failed, `failedUids, `fetchedBytes
      ensures |raws| == |batch| && |accounted| == |batch| && failed == |failedUids| && failedUids == old(failedUids) + reported
      ensures forall i :: 0 <= i < |batch| && accounted[i] ==> raws[i] == ""
      ensures SameBag(reported, Marked(Messages(folder, batch), accounted))
      ensures forall i :: 0 <= i < |batch| && i !in wantedAt ==> raws[i] == cached[i] && !accounted[i]
      ensures var got := Together(world, old(clock), folder, wanted);
              forall k :: 0 <= k < |wanted| && |got| == |wanted| && got[k] != "" ==> raws[wantedAt[k]] == got[k]
    {
      hide Marked, SameBag, Messages, Together;
      raws, accounted, reported := cached, seq(|batch|, _ => false), [];
      ghost var ms := Messages(folder, batch);
      MessagesAre(folder, batch);
      BagNone(ms, accounted);
      if |wanted| == 0 {
        return;
      }
      var got := FetchTogether(folder, wanted);
      for k := 0 to |wanted|
        invariant |raws| == |batch| && |accounted| == |batch| && failed == |failedUids| && failedUids == old(failedUids) + reported
        invariant forall i :: 0 <= i < |batch| && accounted[i] ==> raws[i] == ""
        invariant forall j :: k <= j < |wanted| ==> !accounted[wantedAt[j]] && raws[wantedAt[j]] == ""
        invariant SameBag(reported, Marked(ms, accounted))
        invariant forall i :: 0 <= i < |batch| && i !in wantedAt ==> raws[i] == cached[i] && !accounted[i]
        invariant forall j :: 0 <= j < k && |got| == |wanted| && got[j] != "" ==> raws[wantedAt[j]] == got[j]
      {
        var at := wantedAt[k];
        assert at in wantedAt;
        if |got| == |wanted| && got[k] != "" {
          raws := raws[at := got[k]];
        } else {
          var one := FetchSingle(folder, wanted[k].uid);
          if one.Err? {
            BagMarked(reported, ms, accounted, at);
            reported := reported + [ms[at]];
            failed := failed + 1;
            accounted := accounted[at := true];
            failedUids := failedUids + [(folder, wanted[k].uid)];
            continue;
          }
          raws := raws[at := one.value];
        }
        fetchedBytes := fetchedBytes + |raws[at]|;
      }
    }

    /** Parses and writes a batch. Every message of it not yet accounted for is written or
        reported. */
    method WriteBatch(folder: string, id: nat, batch: seq<Meta>, raws: seq<string>, accounted: seq<bool>)
      returns (ghost done: seq<Message>, ghost reported: seq<Message>)
      requires |raws| == |batch| && |accounted| == |batch| && messages == |written| && failed == |failedUids|
      requires forall i :: 0 <= i < |batch| && accounted[i] ==> raws[i] == ""
      modifies `clock, `failed, `failedUids, `messages, `attachments, `written
      ensures messages == |written| && failed == |failedUids|
      ensures written == old(written) + done && failedUids == old(failedUids) + reported
      ensures Ledger(done, reported, Marked(Messages(folder, batch), accounted), Messages(folder, batch))
    {
      hide Marked, Ledger, Messages;
      ghost var ms := Messages(folder, batch);
      MessagesAre(folder, batch);
      done, reported := [], [];
      EmptyBags();
      MarkedNone([], []);
      assert ms[..0] == [] && accounted[..0] == [];
      for i := 0 to |batch|
        invariant messages == |written| && failed == |failedUids|
        invariant written == old(written) + done && failedUids == old(failedUids) + reported
        invariant Ledger(done, reported, Marked(ms[..i], accounted[..i]), ms[..i])
      {
        MarkedSnoc(ms, accounted, i);
        assert ms[..i + 1] == ms[..i] + [ms[i]] && Marked(ms[..i], accounted[..i]) + [] == Marked(ms[..i], accounted[..i]);
        LedgerWritten(done, reported, Marked(ms[..i], accounted[..i]), ms[..i], ms[i]);
        if raws[i] == "" {
          if !accounted[i] {
            failed := failed + 1;
            failedUids := failedUids + [(folder, batch[i].uid)];
            reported := reported + [ms[i]];
          }
          continue;
        }
        var stored := world.store(clock, id, raws[i]);
        clock := clock + 1;
        if stored.Err? {
          failed := failed + 1;
          failedUids := failedUids + [(folder, batch[i].uid)];
          reported := reported + [ms[i]];
          continue;
        }
        attachments := attachments + stored.value;
        messages := messages + 1;
        written := written + [(folder, batch[i].uid)];
        done := done + [ms[i]];
      }
      assert ms[..|batch|] == ms && accounted[..|batch|] == accounted;
    }

    /** One batch: every message in it ends up written or reported, once. */
    method RunBatch(folder: string, id: nat, batch: seq<Meta>)
      requires Balanced()
      modifies this
      ensures Balanced() && listed == old(listed) + Messages(folder, batch) && batches == old(batches) + [batch]
      ensures unchanged(`tree) && unchanged(`byPath) && unchanged(`folders)
    {
      hide Marked, Ledger, Messages, Split, SameBag;
      ghost var w, f, l := written, failedUids, listed;
      var cached, wanted, wantedAt := FromSpool(folder, batch);
      var raws, accounted, early := FetchWanted(folder, batch, cached, wanted, wantedAt);
      var done, late := WriteBatch(folder, id, batch, raws, accounted);
      Balance(w, f, l, early, Marked(Messages(folder, batch), accounted), done, late, Messages(folder, batch));
      listed := listed + Messages(folder, batch);
      batches := batches + [batch];
    }

    /** All messages of a folder, batch by batch. The batches are the list, cut in order. */
    method RunFolder(folder: string, id: nat, metas: seq<Meta>)
      requires Balanced() && batchSize >= 1
      modifies this
      ensures Balanced() && listed == old(listed) + Messages(folder, metas)
      ensures |old(batches)| <= |batches| && Flat(batches[|old(batches)|..]) == metas
      ensures forall k :: |old(batches)| <= k < |batches| ==> 1 <= |batches[k]| <= batchSize && (|batches[k]| >= 2 ==> Bytes(batches[k]) <= batchBytes)
      ensures unchanged(`tree) && unchanged(`byPath) && unchanged(`folders)
    {
      hide Messages, Split, Bytes, Flat, GoodBatch;
      var start := 0;
      NoMessages(folder, metas);
      ghost var before, n := listed, |batches|;
      assert before + [] == before && batches[n..] == [];
      while start < |metas|
        invariant start <= |metas| && Balanced() && listed == before + Messages(folder, metas[..start])
        invariant n <= |batches| && Flat(batches[n..]) == metas[..start]
        invariant forall k :: n <= k < |batches| ==> 1 <= |batches[k]| <= batchSize && (|batches[k]| >= 2 ==> Bytes(batches[k]) <= batchBytes)
        invariant unchanged(`tree) && unchanged(`byPath) && unchanged(`folders)
        decreases |metas| - start
      {
        var batch := TakeBatch(metas, start, batchSize, batchBytes);
        BatchFacts(metas, start, batchSize, batchBytes, batch);
        MessagesStep(folder, metas, start, batch, before);
        ghost var was := batches;
        RunBatch(folder, id, batch);
        FlatSnoc(was[n..], batch);
        assert batches[n..] == was[n..] + [batch];
        start := start + |batch|;
      }
      assert metas[..|metas|] == metas;
    }

    /** The whole run. A folder whose listing fails is skipped; of every other, each message
        listed is written or reported. Each folder's messages go to the folder of its path. */
    method Run(sources: seq<Source>) returns (targets: seq<Option<nat>>, ghost times: seq<nat>)
      requires Balanced() && listed == [] && batchSize >= 1 && TableOk(tree, byPath)
      modifies this
      ensures Balanced() && messages + failed == |listed| && failed == |failedUids|
      ensures |times| == |sources| && listed == Listings(world, sources, times)
      ensures TableOk(tree, byPath) && |targets| == |sources|
      ensures forall i :: 0 <= i < |sources| ==> Target(tree, sources[i].Path(), targets[i])
      ensures old(AllClean(tree)) && (forall i :: 0 <= i < |sources| ==> CleanPath(sources[i].Path())) ==>
                forall i :: 0 <= i < |sources| ==> OwnTarget(tree, sources[i].Path(), targets[i])
    {
      hide TableOk, CleanPath, Split, PathOf, Key, Messages, Listings, AllClean, Parts;
      TableTree(tree, byPath);
      targets, times := [], [];
      NoListings(world);
      assert sources[..0] == [];
      for i := 0 to |sources|
        invariant Balanced() && TableOk(tree, byPath) && TreeOk(tree) && |targets| == i
        invariant |times| == i && listed == Listings(world, sources[..i], times)
        invariant forall k :: 0 <= k < i ==> Target(tree, sources[k].Path(), targets[k])
        invariant old(AllClean(tree)) && (forall k :: 0 <= k < |sources| ==> CleanPath(sources[k].Path())) ==>
                    AllClean(tree) && forall k :: 0 <= k < i ==> OwnTarget(tree, sources[k].Path(), targets[k])
      {
        var source := sources[i];
        assert sources[..i + 1] == sources[..i] + [source];
        ListingsSnoc(world, sources[..i], times, source, clock);
        times := times + [clock];
        var path := SplitName(source.fullName, source.delimiter);
        if |path| == 0 {
          assert listed + [] == listed;
          targets := targets + [None];
          continue;
        }
        var now, table, id := FolderFor(tree, byPath, path);
        TableTree(now, table);
        tree, byPath := now, table;
        targets := targets + [Some(id)];
        folders := folders + 1;
        if !source.selectable {
          continue;
        }
        var metas := world.list(clock, source.name);
        clock := clock + 1;
        if metas.Err? {
          continue;
        }
        RunFolder(source.name, id, metas.value);
      }
      assert sources[..|sources|] == sources;
      SizesAdd(written, failedUids, listed);
    }
  }

  /** The folder a path leads to has a path with its key; nothing for an empty path. */
  ghost predicate Target(tree: seq<Folder>, path: seq<string>, target: Option<nat>)
    requires TreeOk(tree)
  {
    if path == [] then target == None
    else target.Some? && target.value < |tree| && Key(PathOf(tree, target.value)) == Key(path)
  }

  /** The folder has the path itself. */
  ghost predicate OwnTarget(tree: seq<Folder>, path: seq<string>, target: Option<nat>)
    requires TreeOk(tree)
  {
    path != [] ==> target.Some? && target.value < |tree| && PathOf(tree, target.value) == path
  }

  /** The messages a folder's listing brings, if it is listed at all. */
  function Listing(world: World, source: Source, time: nat): seq<Message> {
    if source.Path() == [] || !source.selectable then []
    else
      match world.list(time, source.name)
      case Err(_) => []
      case Ok(metas) => Messages(source.name, metas)
  }

  function Listings(world: World, sources: seq<Source>, times: seq<nat>): seq<Message>
    requires |times| == |sources|
  {
    if sources == [] then []
    else
      var n := |sources| - 1;
      Listings(world, sources[..n], times[..n]) + Listing(world, sources[n], times[n])
  }

  lemma NoListings(world: World)
    ensures Listings(world, [], []) == []
  {
  }

  lemma ListingsSnoc(world: World, sources: seq<Source>, times: seq<nat>, source: Source, time: nat)
    requires |times| == |sources|
    ensures Listings(world, sources + [source], times + [time]) == Listings(world, sources, times) + Listing(world, source, time)
  {
    assert (sources + [source])[..|sources|] == sources && (times + [time])[..|sources|] == times;
  }

  lemma MessagesAre(folder: string, metas: seq<Meta>)
    ensures |Messages(folder, metas)| == |metas| && forall i :: 0 <= i < |metas| ==> Messages(folder, metas)[i] == (folder, metas[i].uid)
  {
  }

  lemma NoMessages(folder: string, metas: seq<Meta>)
    ensures Messages(folder, metas[..0]) == [] && metas[..0] == [] && Flat([]) == []
  {
  }

  lemma BatchFacts(metas: seq<Meta>, start: nat, size: nat, bytes: nat, batch: seq<Meta>)
    requires GoodBatch(metas, start, size, bytes, batch) && start < |metas| && size >= 1
    ensures 1 <= |batch| <= size && start + |batch| <= |metas| && batch == metas[start..start + |batch|]
    ensures |batch| >= 2 ==> Bytes(batch) <= bytes
  {
    BatchProgress(metas, start, size, bytes, batch);
  }

  lemma MessagesStep(folder: string, metas: seq<Meta>, start: nat, batch: seq<Meta>, before: seq<Message>)
    requires start + |batch| <= |metas| && batch == metas[start..start + |batch|]
    ensures metas[..start + |batch|] == metas[..start] + batch
    ensures before + Messages(folder, metas[..start + |batch|]) == before + Messages(folder, metas[..start]) + Messages(folder, batch)
  {
    hide Messages;
    assert metas[..start + |batch|] == metas[..start] + batch;
    MessagesConcat(folder, metas[..start], batch);
    SumOf(before, Messages(folder, metas[..start]), Messages(folder, batch));
  }

  lemma MessagesConcat(folder: string, a: seq<Meta>, b: seq<Meta>)
    ensures Messages(folder, a + b) == Messages(folder, a) + Messages(folder, b)
  {
  }

  lemma SumOf(a: seq<Message>, b: seq<Message>, c: seq<Message>)
    ensures a + (b + c) == a + b + c
  {
  }

  function Flat(batches: seq<seq<Meta>>): seq<Meta> {
    if batches == [] then [] else Flat(batches[..|batches| - 1]) + batches[|batches| - 1]
  }

  lemma FlatSnoc(batches: seq<seq<Meta>>, batch: seq<Meta>)
    ensures Flat(batches + [batch]) == Flat(batches) + batch
  {
    assert (batches + [batch])[..|batches|] == batches;
  }

  lemma SizesAdd(a: seq<Message>, b: seq<Message>, c: seq<Message>)
    requires Split(a, b, c)
    ensures |a| + |b| == |c|
  {
    assert |multiset(a)| == |a| && |multiset(b)| == |b| && |multiset(c)| == |c|;
  }
}
