/** Reading the history back: `RecentBefore` of runstore/file.go and
    runstore/fsstore.go, and the cursor pages of server/trend.go. */
module Paging {
  import opened Results
  import opened RunStore

  function OlderThan(rs: seq<Record>, before: int): (out: seq<Record>)
    ensures |out| <= |rs|
  {
    if rs == [] then []
    else
      var front := OlderThan(rs[..|rs| - 1], before);
      if rs[|rs| - 1].seqNo < before then front + [rs[|rs| - 1]] else front
  }

  function Reversed(rs: seq<Record>): (out: seq<Record>)
    ensures |out| == |rs| && forall i | 0 <= i < |rs| :: out[i] == rs[|rs| - 1 - i]
  {
    seq(|rs|, i requires 0 <= i < |rs| => rs[|rs| - 1 - i])
  }

  /** Up to `n` records, newest first; only a positive `before` filters. */
  function Recent(rs: seq<Record>, n: int, before: int): seq<Record> {
    if n <= 0 then [] else Reversed(Newest(if before > 0 then OlderThan(rs, before) else rs, n))
  }

  method FilterOlder(all: seq<Record>, before: int) returns (filtered: seq<Record>)
    ensures filtered == OlderThan(all, before)
  {
    filtered := [];
    for i := 0 to |all|
      invariant filtered == OlderThan(all[..i], before)
    {
      assert all[..i + 1][..i] == all[..i];
      if all[i].seqNo < before {
        filtered := filtered + [all[i]];
      }
    }
    assert all[..|all|] == all;
  }

  method Reverse(all: seq<Record>) returns (out: seq<Record>)
    ensures out == Reversed(all)
  {
    out := [];
    for i := |all| downto 0
      invariant out == Reversed(all[i..])
    {
      out := out + [all[i]];
    }
    assert all[0..] == all;
  }

  /** The filter, cut and reversal that both stores perform. */
  method RecentBefore(records: seq<Record>, n: int, before: int) returns (out: seq<Record>)
    ensures out == Recent(records, n, before)
  {
    if n <= 0 {
      return [];
    }
    var all := records;
    if before > 0 {
      all := FilterOlder(all, before);
    }
    if |all| > n {
      all := all[|all| - n..];
    }
    out := Reverse(all);
  }

  /** The store that travels with a build: chains loaded and verified once. */
  class ReadOnly {
    var records: map<string, seq<Record>>

    constructor (records: map<string, seq<Record>>)
      ensures this.records == records
    {
      this.records := records;
    }

    static method OpenFS(h: Hasher, disk: map<string, seq<Record>>) returns (r: Result<ReadOnly, Verdict>)
      ensures r.Ok? <==> forall c | c in disk :: Chained(h, disk[c])
      ensures r.Ok? ==> fresh(r.value) && r.value.records == disk
    {
      var loaded: map<string, seq<Record>> := map[];
      var todo := disk.Keys;
      while todo != {}
        invariant todo <= disk.Keys
        invariant loaded == map c | c in disk && c !in todo :: disk[c]
        invariant forall c | c in disk && c !in todo :: Chained(h, disk[c])
        decreases |todo|
      {
        var c :| c in todo;
        var v := VerifyChain(h, disk[c]);
        if !v.Intact? {
          return Err(v);
        }
        loaded := loaded[c := disk[c]];
        todo := todo - {c};
      }
      var s := new ReadOnly(loaded);
      r := Ok(s);
    }

    method RecentOf(corridor: string, n: int, before: int) returns (out: seq<Record>)
      ensures out == Recent(if Upper(corridor) in records then records[Upper(corridor)] else [], n, before)
    {
      var c := Upper(corridor);
      out := RecentBefore(if c in records then records[c] else [], n, before);
    }
  }

  /** `FileStore.RecentBefore` reads the corridor's file each time. */
  method RecentFrom(store: FileStore, corridor: string, n: int, before: int) returns (out: seq<Record>)
    ensures out == Recent(FileOf(store.Abs(), Upper(corridor)), n, before)
  {
    var c := Upper(corridor);
    out := RecentBefore(if c in store.files then store.files[c] else [], n, before);
  }

  // -------------------------------------------------------------------- pages

  /** One page, oldest first, and the cursor to the page before it; zero when the
      response omits the cursor. */
  datatype Page = Page(runs: seq<Record>, next: int)

  /** The part of `handleTrend` that cuts a page from what the store returned. */
  method CutPage(recent: seq<Record>, limit: nat) returns (p: Page)
    requires limit >= 1
    ensures p == PageOf(recent, limit)
  {
    var hasMore := |recent| > limit;
    var kept := if hasMore then recent[..limit] else recent;
    var recs := Reverse(kept);
    var next := 0;
    if hasMore && |recs| > 0 {
      next := recs[0].seqNo;
    }
    p := Page(recs, next);
  }

  function PageOf(recent: seq<Record>, limit: nat): Page
    requires limit >= 1
  {
    var hasMore := |recent| > limit;
    var recs := Reversed(if hasMore then recent[..limit] else recent);
    Page(recs, if hasMore then recs[0].seqNo else 0)
  }

  /** The page that a request with this limit and cursor is answered with. */
  function TrendPage(rs: seq<Record>, limit: nat, before: int): Page
    requires limit >= 1
  {
    PageOf(Recent(rs, limit + 1, before), limit)
  }

  /** Sequence numbers are positive and increase along the chain. */
  predicate Numbered(rs: seq<Record>) {
    && (forall i | 0 <= i < |rs| :: rs[i].seqNo > 0)
    && (forall i, j | 0 <= i < j < |rs| :: rs[i].seqNo < rs[j].seqNo)
  }

  /** How many of the corridor's runs rotation has dropped. */
  ghost function Dropped(h: Hasher, ops: seq<Op>, c: string): (lo: nat)
    ensures lo <= |History(ops, c)|
  {
    EveryRunIsFaithful(h, ops, c);
    |History(ops, c)| - |FileOf(After(h, ops), c)|
  }

  /** A stored run's number is its place in everything ever appended. */
  lemma StoredNumbers(h: Hasher, ops: seq<Op>, c: string)
    ensures var rs, lo := FileOf(After(h, ops), c), Dropped(h, ops, c);
            && Contents(rs) == History(ops, c)[lo..]
            && forall i | 0 <= i < |rs| :: rs[i].seqNo == lo + i + 1
  {
    EveryRunIsFaithful(h, ops, c);
    hide After, History, FileOf;
    NumbersOf(FileOf(After(h, ops), c), History(ops, c), Dropped(h, ops, c));
  }

  lemma NumbersOf(rs: seq<Record>, history: seq<Record>, lo: nat)
    requires lo <= |history| && Contents(rs) == history[lo..]
    requires forall i | 0 <= i < |history| :: history[i].seqNo == i + 1
    ensures forall i | 0 <= i < |rs| :: rs[i].seqNo == lo + i + 1
  {
    forall i | 0 <= i < |rs|
      ensures rs[i].seqNo == lo + i + 1
    {
      assert Content(rs[i]) == Contents(rs)[i] == history[lo + i];
      assert Content(rs[i]).seqNo == rs[i].seqNo;
    }
  }

  /** The invariant paging needs holds of every corridor of every reachable store. */
  lemma ReachableStoresAreNumbered(h: Hasher, ops: seq<Op>, c: string)
    ensures Numbered(FileOf(After(h, ops), c))
  {
    StoredNumbers(h, ops, c);
  }

  lemma {:induction false} OlderIsPrefix(rs: seq<Record>, k: nat, before: int)
    requires Numbered(rs) && k <= |rs|
    requires forall i | 0 <= i < |rs| :: rs[i].seqNo < before <==> i < k
    ensures OlderThan(rs, before) == rs[..k]
  {
    if rs != [] {
      var front := rs[..|rs| - 1];
      if k == |rs| {
        OlderIsPrefix(front, |front|, before);
        assert rs == front + [rs[|rs| - 1]];
      } else {
        OlderIsPrefix(front, k, before);
        assert front[..k] == rs[..k];
      }
    }
  }

  /** What a cursor stands for, stored or not: the runs with smaller numbers. */
  predicate CursorAt(rs: seq<Record>, before: int, k: nat) {
    k <= |rs| && if before <= 0 then k == |rs| else forall i | 0 <= i < |rs| :: rs[i].seqNo < before <==> i < k
  }

  lemma RecentBeforeCursor(rs: seq<Record>, n: nat, before: int, k: nat)
    requires n >= 1 && Numbered(rs) && CursorAt(rs, before, k)
    ensures Recent(rs, n, before) == Reversed(Newest(rs[..k], n))
  {
    if before > 0 {
      OlderIsPrefix(rs, k, before);
    } else {
      assert rs[..k] == rs;
    }
  }

  lemma CutOfNewest(older: seq<Record>, limit: nat)
    requires limit >= 1
    ensures PageOf(Reversed(Newest(older, limit + 1)), limit)
         == Page(Newest(older, limit), if |older| <= limit then 0 else older[|older| - limit].seqNo)
  {
  }

  /** A page is the stretch of at most `limit` runs just before the cursor, oldest
      first, and its own cursor names its first run, unless nothing is older. */
  lemma PageIsStretch(rs: seq<Record>, limit: nat, before: int, k: nat)
    requires limit >= 1 && Numbered(rs) && CursorAt(rs, before, k)
    ensures k <= |rs|
    ensures var older := rs[..k];
            TrendPage(rs, limit, before)
            == Page(Newest(older, limit), if |older| <= limit then 0 else older[|older| - limit].seqNo)
  {
    hide Numbered, OlderThan, Reversed, Recent, Newest, PageOf;
    RecentBeforeCursor(rs, limit + 1, before, k);
    CutOfNewest(rs[..k], limit);
  }

  /** All pages, from this cursor until a response omits one. That this recursion
      is well-founded is the termination of the crawl. */
  ghost function Crawl(rs: seq<Record>, limit: nat, before: int, k: nat): (pages: seq<Page>)
    requires limit >= 1 && Numbered(rs) && CursorAt(rs, before, k)
    decreases k
  {
    hide Numbered, CursorAt, TrendPage, PageBefore;
    PageBeforeCursor(rs, limit, before, k);
    var p := TrendPage(rs, limit, before);
    if p.next == 0 then [p] else [p] + Crawl(rs, limit, p.next, k - limit)
  }

  function Oldest(pages: seq<Page>): seq<Record> {
    if pages == [] then [] else Oldest(pages[1..]) + pages[0].runs
  }

  /** The page that ends before run `k`. */
  function PageBefore(rs: seq<Record>, limit: nat, k: nat): Page
    requires limit >= 1 && k <= |rs|
  {
    if k <= limit then Page(rs[..k], 0) else Page(rs[k - limit..k], rs[k - limit].seqNo)
  }

  lemma PageBeforeCursor(rs: seq<Record>, limit: nat, before: int, k: nat)
    requires limit >= 1 && Numbered(rs) && CursorAt(rs, before, k)
    ensures k <= |rs| && TrendPage(rs, limit, before) == PageBefore(rs, limit, k)
    ensures PageBefore(rs, limit, k).next == 0 <==> k <= limit
    ensures k > limit ==> CursorAt(rs, PageBefore(rs, limit, k).next, k - limit)
  {
    hide TrendPage;
    PageIsStretch(rs, limit, before, k);
    assert Newest(rs[..k], limit) == PageBefore(rs, limit, k).runs;
  }

  lemma CrawlUnfolds(rs: seq<Record>, limit: nat, before: int, k: nat)
    requires limit >= 1 && Numbered(rs) && CursorAt(rs, before, k)
    ensures k <= |rs|
    ensures k > limit ==> CursorAt(rs, PageBefore(rs, limit, k).next, k - limit)
    ensures var p := PageBefore(rs, limit, k);
            Crawl(rs, limit, before, k) == if k <= limit then [p] else [p] + Crawl(rs, limit, p.next, k - limit)
  {
    hide TrendPage, PageBefore, Numbered, CursorAt;
    PageBeforeCursor(rs, limit, before, k);
  }

  lemma {:induction false} CrawlCovers(rs: seq<Record>, limit: nat, before: int, k: nat)
    requires limit >= 1 && Numbered(rs) && CursorAt(rs, before, k)
    ensures k <= |rs| && Oldest(Crawl(rs, limit, before, k)) == rs[..k]
    decreases k
  {
    hide Numbered, CursorAt, TrendPage, Crawl, Oldest;
    CrawlUnfolds(rs, limit, before, k);
    var p := PageBefore(rs, limit, k);
    if k <= limit {
      OldestUnfolds(p, []);
      assert [p] + [] == [p];
    } else {
      CrawlCovers(rs, limit, p.next, k - limit);
      OldestUnfolds(p, Crawl(rs, limit, p.next, k - limit));
    }
  }

  /** Every page that names an older one is full; the last may be short. */
  lemma {:induction false} PagesAreFull(rs: seq<Record>, limit: nat, before: int, k: nat)
    requires limit >= 1 && Numbered(rs) && CursorAt(rs, before, k)
    ensures forall p | p in Crawl(rs, limit, before, k) :: if p.next != 0 then |p.runs| == limit else |p.runs| <= limit
    decreases k
  {
    hide Numbered, CursorAt, TrendPage, Crawl;
    CrawlUnfolds(rs, limit, before, k);
    PageBeforeCursor(rs, limit, before, k);
    if k > limit {
      PagesAreFull(rs, limit, PageBefore(rs, limit, k).next, k - limit);
    }
  }

  lemma OldestUnfolds(p: Page, rest: seq<Page>)
    ensures Oldest([p] + rest) == Oldest(rest) + p.runs && Oldest([]) == []
  {
  }

  /** Following `next` from no cursor until it is omitted ends, and the pages, put
      back in order, are the corridor's whole history: each stored run appears on
      exactly one page. */
  lemma CrawlVisitsEveryRunOnce(h: Hasher, ops: seq<Op>, c: string, limit: nat)
    requires limit >= 1
    ensures var rs := FileOf(After(h, ops), c);
            && Numbered(rs)
            && Oldest(Crawl(rs, limit, 0, |rs|)) == rs
            && forall i, j | 0 <= i < j < |rs| :: rs[i] != rs[j]
  {
    ReachableStoresAreNumbered(h, ops, c);
    var rs := FileOf(After(h, ops), c);
    CrawlCovers(rs, limit, 0, |rs|);
    assert rs[..|rs|] == rs;
  }

  lemma {:induction false} OlderIgnoresNewer(rs: seq<Record>, added: seq<Record>, before: int)
    requires forall i | 0 <= i < |added| :: added[i].seqNo >= before
    ensures OlderThan(rs + added, before) == OlderThan(rs, before)
  {
    if added != [] {
      var front := added[..|added| - 1];
      OlderIgnoresNewer(rs, front, before);
      assert (rs + added)[..|rs + added| - 1] == rs + front;
    } else {
      assert rs + added == rs;
    }
  }

  /** Runs appended between two requests do not move the pages a cursor leads to. */
  lemma CursorsSurviveAppends(rs: seq<Record>, added: seq<Record>, limit: nat, before: int)
    requires limit >= 1 && before > 0
    requires forall i | 0 <= i < |added| :: added[i].seqNo >= before
    ensures TrendPage(rs + added, limit, before) == TrendPage(rs, limit, before)
  {
    OlderIgnoresNewer(rs, added, before);
    hide OlderThan, PageOf, Reversed, Newest;
  }

  // ------------------------------------------------- a store that runs on meanwhile

  /** Where a cursor points in everything ever appended. */
  function Until(history: seq<Record>, before: int): (end: nat)
    ensures end <= |history|
  {
    if before <= 0 || before > |history| then |history| else before - 1
  }

  /** The runs numbered from `lo + 1` to `end`, at most the last `limit` of them. */
  function Stretch(history: seq<Record>, lo: nat, end: nat, limit: nat): seq<Record>
    requires end <= |history|
  {
    if end <= lo then [] else if end - lo <= limit then history[lo..end] else history[end - limit..end]
  }

  /** The cursor of that stretch. */
  function StretchNext(lo: nat, end: nat, limit: nat): nat {
    if end > lo + limit then end - limit + 1 else 0
  }

  ghost function PageAfter(h: Hasher, ops: seq<Op>, c: string, limit: nat, before: int): Page
    requires limit >= 1
  {
    TrendPage(FileOf(After(h, ops), c), limit, before)
  }

  /** A page of a reachable store, for any cursor whatever, is the stretch of the
      corridor's whole history just before the cursor, cut where rotation has cut. */
  lemma PageIsHistory(h: Hasher, ops: seq<Op>, c: string, limit: nat, before: int)
    requires limit >= 1
    ensures var history, lo := History(ops, c), Dropped(h, ops, c);
            var end, p := Until(history, before), PageAfter(h, ops, c, limit, before);
            Contents(p.runs) == Stretch(history, lo, end, limit) && p.next == StretchNext(lo, end, limit)
  {
    hide *;
    StoredNumbers(h, ops, c);
    PageOfWindow(FileOf(After(h, ops), c), History(ops, c), Dropped(h, ops, c), limit, before);
    PageAfterIs(h, ops, c, limit, before);
  }

  lemma PageAfterIs(h: Hasher, ops: seq<Op>, c: string, limit: nat, before: int)
    requires limit >= 1
    ensures PageAfter(h, ops, c, limit, before) == TrendPage(FileOf(After(h, ops), c), limit, before)
  {
  }

  lemma PageOfWindow(rs: seq<Record>, history: seq<Record>, lo: nat, limit: nat, before: int)
    requires limit >= 1 && lo <= |history| && Contents(rs) == history[lo..]
    requires forall i | 0 <= i < |rs| :: rs[i].seqNo == lo + i + 1
    ensures var end, p := Until(history, before), TrendPage(rs, limit, before);
            Contents(p.runs) == Stretch(history, lo, end, limit) && p.next == StretchNext(lo, end, limit)
  {
    hide TrendPage;
    var end := Until(history, before);
    var k: nat := if end <= lo then 0 else end - lo;
    PageIsStretch(rs, limit, before, k);
    StretchOfWindow(rs, history, lo, end, k, limit);
  }

  lemma StretchOfWindow(rs: seq<Record>, history: seq<Record>, lo: nat, end: nat, k: nat, limit: nat)
    requires lo <= |history| && end <= |history| && Contents(rs) == history[lo..]
    requires k == if end <= lo then 0 else end - lo
    ensures k <= |rs| && Contents(Newest(rs[..k], limit)) == Stretch(history, lo, end, limit)
  {
    ContentsOfNewest(rs[..k], limit);
    assert Contents(rs[..k]) == Contents(rs)[..k] == history[lo..][..k];
  }

  lemma {:induction false} HistoryGrows(ops: seq<Op>, more: seq<Op>, c: string)
    ensures History(ops, c) <= History(ops + more, c)
  {
    if more == [] {
      assert ops + more == ops;
    } else {
      var front := more[..|more| - 1];
      HistoryGrows(ops, front, c);
      assert (ops + more)[..|ops + more| - 1] == ops + front;
    }
  }

  /** What a cursor leads to after anything has happened to the store since: the runs
      it would have led to, without those a rotation has dropped meanwhile. */
  lemma CursorLeadsTo(h: Hasher, ops: seq<Op>, more: seq<Op>, c: string, limit: nat, before: int)
    requires limit >= 1 && 0 < before <= |History(ops, c)| + 1
    ensures var p, lo := PageAfter(h, ops + more, c, limit, before), Dropped(h, ops + more, c);
            && Contents(p.runs) == Stretch(History(ops, c), lo, before - 1, limit)
            && p.next == StretchNext(lo, before - 1, limit)
  {
    hide *;
    HistoryGrows(ops, more, c);
    PageIsHistory(h, ops + more, c, limit, before);
    StretchOfPrefix(History(ops, c), History(ops + more, c), Dropped(h, ops + more, c), before, limit);
  }

  lemma StretchOfPrefix(past: seq<Record>, history: seq<Record>, lo: nat, before: int, limit: nat)
    requires past <= history && 0 < before <= |past| + 1
    ensures Until(history, before) == before - 1 <= |past|
    ensures Stretch(past, lo, before - 1, limit) == Stretch(history, lo, before - 1, limit)
  {
  }

  lemma StepDrops(h: Hasher, ops: seq<Op>, op: Op, c: string)
    ensures Dropped(h, ops, c) <= Dropped(h, ops + [op], c)
    ensures Dropped(h, ops, c) == Dropped(h, ops + [op], c) ==>
              FileOf(After(h, ops), c) <= FileOf(After(h, ops + [op]), c)
  {
    assert (ops + [op])[..|ops|] == ops;
    EveryRunIsFaithful(h, ops, c);
    var st := After(h, ops);
    ExecLength(h, st, op, c);
    HistoryLength(ops + [op], c);
    hide History, Exec, FileOf, Appends, FaithfulFile, Indexed;
  }

  /** Rotation never brings a run back, and if it has dropped none since, the file has
      only grown. */
  lemma {:induction false} DroppedGrows(h: Hasher, ops: seq<Op>, more: seq<Op>, c: string)
    ensures Dropped(h, ops, c) <= Dropped(h, ops + more, c)
    ensures Dropped(h, ops, c) == Dropped(h, ops + more, c) ==>
              FileOf(After(h, ops), c) <= FileOf(After(h, ops + more), c)
  {
    hide Dropped, After, FileOf;
    if more == [] {
      assert ops + more == ops;
    } else {
      var front, op := more[..|more| - 1], more[|more| - 1];
      DroppedGrows(h, ops, front, c);
      assert ops + more == (ops + front) + [op];
      StepDrops(h, ops + front, op, c);
    }
  }

  /** What a rotation reports is what it does to the history: the numbers of the runs it
      drops, which follow on those dropped before, and that of the oldest it keeps. */
  lemma ReportMeans(h: Hasher, ops: seq<Op>, c: string, n: nat)
    requires 0 < n < |FileOf(After(h, ops), c)|
    ensures var rs, after := FileOf(After(h, ops), c), ops + [RotateOp(n)];
            var r, now := Report(c, rs, n), FileOf(After(h, after), c);
            && r.corridor == c && r.recordsBefore == |rs| && r.recordsAfter == |now| == n
            && r.droppedSeqStart == Dropped(h, ops, c) + 1 && r.droppedSeqEnd == Dropped(h, after, c)
            && r.newHeadSeq == now[0].seqNo == r.droppedSeqEnd + 1
  {
    var after := ops + [RotateOp(n)];
    StoredNumbers(h, ops, c);
    StoredNumbers(h, after, c);
    assert after[..|ops|] == ops;
    EveryRunIsFaithful(h, ops, c);
    ExecLength(h, After(h, ops), RotateOp(n), c);
    HistoryLength(after, c);
    hide History, Exec, FileOf, FaithfulFile, Indexed, Contents;
  }

  /** Unless a rotation has dropped runs meanwhile, a cursor leads to the very same page. */
  lemma PagesSurviveAppends(h: Hasher, ops: seq<Op>, more: seq<Op>, c: string, limit: nat, before: int)
    requires limit >= 1 && 0 < before <= |History(ops, c)| + 1
    requires Dropped(h, ops + more, c) == Dropped(h, ops, c)
    ensures PageAfter(h, ops + more, c, limit, before) == PageAfter(h, ops, c, limit, before)
  {
    hide *;
    DroppedGrows(h, ops, more, c);
    StoredNumbers(h, ops, c);
    StoredNumbers(h, ops + more, c);
    PageAfterIs(h, ops, c, limit, before);
    PageAfterIs(h, ops + more, c, limit, before);
    PrefixPages(FileOf(After(h, ops), c), FileOf(After(h, ops + more), c), Dropped(h, ops, c), limit, before);
  }

  lemma PrefixPages(rs: seq<Record>, now: seq<Record>, lo: nat, limit: nat, before: int)
    requires limit >= 1 && rs <= now && 0 < before <= lo + |rs| + 1
    requires forall i | 0 <= i < |now| :: now[i].seqNo == lo + i + 1
    ensures TrendPage(now, limit, before) == TrendPage(rs, limit, before)
  {
    hide TrendPage;
    assert now == rs + now[|rs|..];
    CursorsSurviveAppends(rs, now[|rs|..], limit, before);
  }

  /** The pages one client gets by following cursors, while between its requests the
      store appends, rotates and restarts in any way. */
  ghost function Visit(h: Hasher, ops: seq<Op>, gaps: seq<seq<Op>>, c: string, limit: nat, before: int): (pages: seq<Page>)
    requires limit >= 1
    ensures pages != []
    decreases |gaps|
  {
    var p := PageAfter(h, ops, c, limit, before);
    if p.next == 0 || gaps == [] then [p] else [p] + Visit(h, ops + gaps[0], gaps[1..], c, limit, p.next)
  }

  function Flattened(gaps: seq<seq<Op>>): seq<Op> {
    if gaps == [] then [] else gaps[0] + Flattened(gaps[1..])
  }

  /** These runs are the history's own, up to run `end`: none twice, none skipped. */
  predicate Contiguous(history: seq<Record>, runs: seq<Record>, end: nat) {
    |runs| <= end <= |history| && Contents(runs) == history[end - |runs|..end]
  }

  lemma StretchIsContiguous(history: seq<Record>, runs: seq<Record>, lo: nat, end: nat, limit: nat)
    requires limit >= 1 && end <= |history| && Contents(runs) == Stretch(history, lo, end, limit)
    ensures Contiguous(history, runs, end)
    ensures if StretchNext(lo, end, limit) == 0 then end - |runs| <= lo
            else |runs| == limit && StretchNext(lo, end, limit) == end - limit + 1 > 1
  {
    assert |runs| == |Contents(runs)|;
  }

  lemma ContiguousJoin(past: seq<Record>, history: seq<Record>, older: seq<Record>, runs: seq<Record>, end: nat)
    requires past <= history && Contiguous(past, runs, end) && Contiguous(history, older, end - |runs|)
    ensures Contiguous(past, older + runs, end)
  {
    assert Contents(older + runs) == Contents(older) + Contents(runs);
  }

  /** All that is left unseen below run `end` has been dropped. */
  ghost predicate Exhausted(h: Hasher, ops: seq<Op>, c: string, end: nat, seen: nat) {
    end - seen <= Dropped(h, ops, c)
  }

  /** Whatever happens in between, the pages put back in order are one stretch of the
      history, ending at the cursor the client began with: no run twice, none skipped.
      A client that has come to a page without a cursor has been shown every run before
      its first cursor that is still stored. */
  lemma {:induction false} VisitIsContiguous(h: Hasher, ops: seq<Op>, gaps: seq<seq<Op>>, c: string, limit: nat, before: int)
    requires limit >= 1
    ensures var pages, end := Visit(h, ops, gaps, c, limit, before), Until(History(ops, c), before);
            && Contiguous(History(ops, c), Oldest(pages), end)
            && (pages[|pages| - 1].next == 0 ==> Exhausted(h, ops + Flattened(gaps), c, end, |Oldest(pages)|))
    decreases |gaps|
  {
    hide *;
    var p, past := PageAfter(h, ops, c, limit, before), History(ops, c);
    var end := Until(past, before);
    PageIsHistory(h, ops, c, limit, before);
    StretchIsContiguous(past, p.runs, Dropped(h, ops, c), end, limit);
    VisitUnfolds(h, ops, gaps, c, limit, before);
    if p.next == 0 || gaps == [] {
      OldestOfOne(p);
      DroppedGrows(h, ops, Flattened(gaps), c);
      ExhaustedMeans(h, ops + Flattened(gaps), c, end, |p.runs|);
    } else {
      var later := ops + gaps[0];
      var pages := Visit(h, later, gaps[1..], c, limit, p.next);
      VisitIsContiguous(h, later, gaps[1..], c, limit, p.next);
      HistoryGrows(ops, gaps[0], c);
      VisitGoesOn(past, History(later, c), pages, p, end);
      FlattenedIs(ops, gaps);
      ExhaustedMeans(h, ops + Flattened(gaps), c, end - |p.runs|, |Oldest(pages)|);
      ExhaustedMeans(h, ops + Flattened(gaps), c, end, |p.runs| + |Oldest(pages)|);
    }
  }

  lemma VisitUnfolds(h: Hasher, ops: seq<Op>, gaps: seq<seq<Op>>, c: string, limit: nat, before: int)
    requires limit >= 1
    ensures var p := PageAfter(h, ops, c, limit, before);
            Visit(h, ops, gaps, c, limit, before)
            == if p.next == 0 || gaps == [] then [p] else [p] + Visit(h, ops + gaps[0], gaps[1..], c, limit, p.next)
  {
  }

  lemma OldestOfOne(p: Page)
    ensures Oldest([p]) == p.runs
  {
    OldestUnfolds(p, []);
    assert [p] + [] == [p];
  }

  lemma FlattenedIs(ops: seq<Op>, gaps: seq<seq<Op>>)
    requires gaps != []
    ensures ops + Flattened(gaps) == (ops + gaps[0]) + Flattened(gaps[1..])
  {
  }

  lemma ExhaustedMeans(h: Hasher, ops: seq<Op>, c: string, end: nat, seen: nat)
    ensures Exhausted(h, ops, c, end, seen) <==> end - seen <= Dropped(h, ops, c)
  {
  }

  lemma VisitGoesOn(past: seq<Record>, history: seq<Record>, pages: seq<Page>, p: Page, end: nat)
    requires past <= history && Contiguous(past, p.runs, end) && p.next == end - |p.runs| + 1 > 1
    requires Contiguous(history, Oldest(pages), Until(history, p.next))
    ensures Until(history, p.next) == end - |p.runs|
    ensures |Oldest([p] + pages)| == |p.runs| + |Oldest(pages)|
    ensures Contiguous(past, Oldest([p] + pages), end)
  {
    OldestUnfolds(p, pages);
    assert Until(history, p.next) == end - |p.runs|;
    hide Until, Oldest;
    ContiguousJoin(past, history, Oldest(pages), p.runs, end);
  }
}
