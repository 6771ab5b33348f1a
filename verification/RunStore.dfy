/** The hash-chained run history of runstore/runstore.go and runstore/file.go. */
module RunStore {
  import opened Ordering
  import opened Results

  // A chain file is modelled here as its sequence of records; ChainFile.dfy has
  // the bytes. SHA-256 and the JSON encoder are parameters, collected in `Hasher`;
  // what is assumed of them is `CollisionFree`.

  const GENESIS_PREV_HASH := "sha256:0000000000000000000000000000000000000000000000000000000000000000"

  const VERSION := 4

  const SECOND := 1_000_000_000

  /** `recordedAt` is in nanoseconds, zero for an unset time. `dependsOn` and
      `rungs` tell a nil slice from an empty one; the fields that the store only
      carries along are gathered in `reading`. */
  datatype Record = Record(
    version: int, seqNo: int, recordedAt: int, corridor: string,
    dependsOn: Option<seq<string>>, rungs: Option<seq<string>>,
    reading: string, snapshot: string,
    prevHash: string, hash: string)

  datatype Hasher = Hasher(encode: Record -> string, sha: string -> string)
  {
    /** What is hashed: the encoding of the record with its own hash cleared. */
    function Preimage(r: Record): string { encode(r.(hash := "")) }

    function ComputeHash(r: Record): string { sha(Preimage(r)) }

    function Seal(r: Record): Record { r.(hash := ComputeHash(r)) }

    predicate VerifySelf(r: Record) { r.hash == ComputeHash(r) }

    ghost predicate CollisionFree() {
      && (forall a: Record, b: Record :: encode(a) == encode(b) ==> a == b)
      && (forall x: string, y: string :: sha(x) == sha(y) ==> x == y)
      && (forall x: string :: sha(x) != GENESIS_PREV_HASH)
    }
  }

  // ------------------------------------------------------------------- chains

  /** The verdict on a chain, naming the first record that does not reconcile. */
  datatype Verdict = Intact | Modified(at: nat) | Unlinked(at: nat)

  function LastHash(rs: seq<Record>): string {
    if rs == [] then GENESIS_PREV_HASH else rs[|rs| - 1].hash
  }

  predicate Linked(h: Hasher, rs: seq<Record>, i: nat)
    requires i < |rs|
  {
    h.VerifySelf(rs[i]) && rs[i].prevHash == LastHash(rs[..i])
  }

  /** Every hash covers its record and every record names the one before it. */
  predicate Chained(h: Hasher, rs: seq<Record>) {
    forall i: nat | i < |rs| :: Linked(h, rs, i)
  }

  method VerifyChain(h: Hasher, rs: seq<Record>) returns (v: Verdict)
    ensures v.Intact? <==> Chained(h, rs)
    ensures v.Modified? ==> v.at < |rs| && Chained(h, rs[..v.at]) && !h.VerifySelf(rs[v.at])
    ensures v.Unlinked? ==> v.at < |rs| && Chained(h, rs[..v.at]) && h.VerifySelf(rs[v.at])
                            && rs[v.at].prevHash != LastHash(rs[..v.at])
  {
    var prev := GENESIS_PREV_HASH;
    for i := 0 to |rs|
      invariant prev == LastHash(rs[..i])
      invariant forall j: nat | j < i :: Linked(h, rs, j)
    {
      PrefixLinks(h, rs, i);
      assert Linked(h, rs, i) <==> h.VerifySelf(rs[i]) && rs[i].prevHash == prev;
      if !h.VerifySelf(rs[i]) {
        return Modified(i);
      }
      if rs[i].prevHash != prev {
        return Unlinked(i);
      }
      prev := rs[i].hash;
    }
    v := Intact;
  }

  lemma PrefixLinks(h: Hasher, rs: seq<Record>, n: nat)
    requires n <= |rs|
    ensures Chained(h, rs[..n]) <==> forall j: nat | j < n :: Linked(h, rs, j)
  {
    forall j: nat | j < n
      ensures Linked(h, rs[..n], j) <==> Linked(h, rs, j)
    {
      assert rs[..n][..j] == rs[..j];
    }
    if forall j: nat | j < n :: Linked(h, rs, j) {
      assert Chained(h, rs[..n]);
    }
    if Chained(h, rs[..n]) {
      forall j: nat | j < n ensures Linked(h, rs, j) {
        assert Linked(h, rs[..n], j);
      }
    }
  }

  lemma ChainedSnoc(h: Hasher, rs: seq<Record>, r: Record)
    ensures Chained(h, rs + [r]) <==> Chained(h, rs) && h.VerifySelf(r) && r.prevHash == LastHash(rs)
  {
    PrefixLinks(h, rs + [r], |rs|);
    assert (rs + [r])[..|rs|] == rs;
    if Chained(h, rs + [r]) {
      assert Linked(h, rs + [r], |rs|);
    }
  }

  // --------------------------------------------------------- tamper evidence

  lemma NoChainEndsInGenesis(h: Hasher, rs: seq<Record>)
    requires h.CollisionFree() && Chained(h, rs)
    ensures LastHash(rs) == GENESIS_PREV_HASH <==> rs == []
  {
    if rs != [] {
      assert Linked(h, rs, |rs| - 1);
    }
  }

  /** With a collision-free hash, the final hash of a verified chain determines
      the whole chain, its length included. */
  lemma {:induction false} FinalHashDeterminesChain(h: Hasher, a: seq<Record>, b: seq<Record>)
    requires h.CollisionFree() && Chained(h, a) && Chained(h, b)
    requires LastHash(a) == LastHash(b)
    ensures a == b
  {
    NoChainEndsInGenesis(h, a);
    NoChainEndsInGenesis(h, b);
    if a != [] && b != [] {
      var a', x := a[..|a| - 1], a[|a| - 1];
      var b', y := b[..|b| - 1], b[|b| - 1];
      assert a == a' + [x] && b == b' + [y];
      ChainedSnoc(h, a', x);
      ChainedSnoc(h, b', y);
      FinalHashDeterminesChain(h, a', b');
    }
  }

  /** Where verification of a chain stops. */
  ghost predicate FailsAt(h: Hasher, rs: seq<Record>, i: nat) {
    i < |rs| && Chained(h, rs[..i]) && !Linked(h, rs, i)
  }

  /** Replacing any one record before the last, and nothing else, breaks the chain
      at that record or at the next; exactly at the next when the forger relinked
      and re-sealed the record. */
  lemma AlteredRecordIsEvident(h: Hasher, rs: seq<Record>, i: nat, forged: Record)
    requires h.CollisionFree() && Chained(h, rs)
    requires i + 1 < |rs| && forged != rs[i]
    ensures var bad := rs[i := forged];
            if h.VerifySelf(forged) && forged.prevHash == rs[i].prevHash then FailsAt(h, bad, i + 1)
            else FailsAt(h, bad, i)
  {
    var bad := rs[i := forged];
    assert bad[..i] == rs[..i];
    PrefixLinks(h, rs, i);
    assert Linked(h, rs, i) && Linked(h, rs, i + 1);
    if h.VerifySelf(forged) && forged.prevHash == rs[i].prevHash {
      assert bad[..i + 1] == rs[..i] + [forged];
      ChainedSnoc(h, rs[..i], forged);
      assert rs[i + 1].prevHash == rs[i].hash by { assert rs[..i + 1][i] == rs[i]; }
      assert LastHash(bad[..i + 1]) == forged.hash;
    }
  }

  // ------------------------------------------------------------- re-sealing

  /** What a record says, its two hash fields aside. */
  function Content(r: Record): Record { r.(prevHash := "", hash := "") }

  function Contents(rs: seq<Record>): (cs: seq<Record>)
    ensures |cs| == |rs| && forall i | 0 <= i < |rs| :: cs[i] == Content(rs[i])
  {
    seq(|rs|, i requires 0 <= i < |rs| => Content(rs[i]))
  }

  /** The chain of the given contents, linked from the genesis hash. */
  function Reseal(h: Hasher, rs: seq<Record>): (out: seq<Record>)
    ensures |out| == |rs|
  {
    if rs == [] then []
    else
      var front := Reseal(h, rs[..|rs| - 1]);
      front + [h.Seal(rs[|rs| - 1].(prevHash := LastHash(front)))]
  }

  lemma ResealSnoc(h: Hasher, rs: seq<Record>, i: nat)
    requires i < |rs|
    ensures Reseal(h, rs[..i + 1])
         == Reseal(h, rs[..i]) + [h.Seal(rs[i].(prevHash := LastHash(Reseal(h, rs[..i]))))]
  {
    assert rs[..i + 1][..i] == rs[..i];
  }

  lemma {:induction false} ResealIsChained(h: Hasher, rs: seq<Record>)
    ensures Chained(h, Reseal(h, rs))
    ensures Contents(Reseal(h, rs)) == Contents(rs)
  {
    if rs != [] {
      var front, last := rs[..|rs| - 1], rs[|rs| - 1];
      ResealIsChained(h, front);
      var f := Reseal(h, front);
      ChainedSnoc(h, f, h.Seal(last.(prevHash := LastHash(f))));
      assert forall i | 0 <= i < |front| :: Contents(f)[i] == Contents(front)[i];
    }
  }

  /** A chain is determined by its contents. */
  lemma {:induction false} ContentsDetermineChain(h: Hasher, a: seq<Record>, b: seq<Record>)
    requires Chained(h, a) && Chained(h, b) && Contents(a) == Contents(b)
    ensures a == b
  {
    if a != [] {
      var a', x := a[..|a| - 1], a[|a| - 1];
      var b', y := b[..|b| - 1], b[|b| - 1];
      assert a == a' + [x] && b == b' + [y];
      ChainedSnoc(h, a', x);
      ChainedSnoc(h, b', y);
      assert |b| == |Contents(a)| == |a|;
      assert Contents(a') == Contents(a)[..|a| - 1] == Contents(b)[..|b| - 1] == Contents(b');
      ContentsDetermineChain(h, a', b');
      assert Contents(a)[|a| - 1] == Content(x) && Contents(b)[|b| - 1] == Content(y);
      assert x.(hash := "") == y.(hash := "");
    }
  }

  function Newest(rs: seq<Record>, n: nat): (out: seq<Record>)
    ensures |out| == if |rs| <= n then |rs| else n
  {
    if |rs| <= n then rs else rs[|rs| - n..]
  }

  /** What rotation with ceiling `n` makes of one chain. */
  function Rotated(h: Hasher, rs: seq<Record>, n: nat): seq<Record> {
    if |rs| <= n then rs else Reseal(h, Newest(rs, n))
  }

  /** Rotation keeps the newest min(length, n) records in order, changes nothing
      but their hash fields, and leaves a chain that verifies. */
  lemma RotatedKeepsWindow(h: Hasher, rs: seq<Record>, n: nat)
    requires Chained(h, rs)
    ensures Chained(h, Rotated(h, rs, n))
    ensures Contents(Rotated(h, rs, n)) == Contents(Newest(rs, n))
  {
    ResealIsChained(h, Newest(rs, n));
  }

  lemma ContentsOfNewest(rs: seq<Record>, n: nat)
    ensures Contents(Newest(rs, n)) == Newest(Contents(rs), n)
  {
  }

  lemma NewestOfNewest(rs: seq<Record>, m: nat, n: nat)
    requires n <= m
    ensures Newest(Newest(rs, m), n) == Newest(rs, n)
  {
  }

  lemma RotatedContents(h: Hasher, rs: seq<Record>, n: nat)
    requires Chained(h, rs)
    ensures Contents(Rotated(h, rs, n)) == Newest(Contents(rs), n)
  {
    RotatedKeepsWindow(h, rs, n);
  }

  /** Idempotence, and more: an earlier rotation with a ceiling at least as high
      leaves no trace, not even in the hashes. */
  lemma EarlierRotationLeavesNoTrace(h: Hasher, rs: seq<Record>, m: nat, n: nat)
    requires Chained(h, rs) && n <= m
    ensures Rotated(h, Rotated(h, rs, m), n) == Rotated(h, rs, n)
  {
    var w := Rotated(h, rs, m);
    RotatedKeepsWindow(h, rs, m);
    RotatedKeepsWindow(h, rs, n);
    RotatedKeepsWindow(h, w, n);
    RotatedContents(h, rs, m);
    RotatedContents(h, rs, n);
    RotatedContents(h, w, n);
    NewestOfNewest(Contents(rs), m, n);
    ContentsDetermineChain(h, Rotated(h, w, n), Rotated(h, rs, n));
  }

  // -------------------------------------------------------------- the store

  /** The chain files and the index of their last records. */
  datatype Store = Store(files: map<string, seq<Record>>, tips: map<string, Record>)

  function FileOf(st: Store, c: string): seq<Record> {
    if c in st.files then st.files[c] else []
  }

  function UpperChar(x: char): char {
    if 'a' <= x <= 'z' then x - 'a' + 'A' else x
  }

  function Upper(s: string): string {
    seq(|s|, i requires 0 <= i < |s| => UpperChar(s[i]))
  }

  function OrEmpty(o: Option<seq<string>>): Option<seq<string>> {
    if o.None? then Some([]) else o
  }

  /** The fields that `Append` sets before it links the record: the current
      version, a recording time in whole seconds, and no nil slices. */
  function Stamp(r: Record, now: int): Record {
    var at := if r.recordedAt == 0 then now else r.recordedAt;
    r.(version := VERSION, recordedAt := at - at % SECOND,
       dependsOn := OrEmpty(r.dependsOn), rungs := OrEmpty(r.rungs))
  }

  /** The second in which this moment falls. */
  predicate SecondOf(second: int, moment: int) {
    second % 1_000_000_000 == 0 && second <= moment < second + 1_000_000_000
  }

  predicate GivenOrEmpty(given: Option<seq<string>>, kept: Option<seq<string>>) {
    kept == Some(if given.Some? then given.value else [])
  }

  /** What a stored record owes to the record handed in at `now`: every field but the
      version, the number and the two hashes. */
  predicate Keeps(given: Record, now: int, kept: Record) {
    && kept.corridor == given.corridor && kept.reading == given.reading && kept.snapshot == given.snapshot
    && GivenOrEmpty(given.dependsOn, kept.dependsOn) && GivenOrEmpty(given.rungs, kept.rungs)
    && SecondOf(kept.recordedAt, if given.recordedAt == 0 then now else given.recordedAt)
    && kept.version == 4
  }

  /** The record as it is written: linked to the tip, numbered and sealed. */
  function Linkup(h: Hasher, st: Store, r: Record, now: int): Record {
    var c, s := Upper(r.corridor), Stamp(r, now);
    h.Seal(
      if c in st.tips then s.(prevHash := st.tips[c].hash, seqNo := st.tips[c].seqNo + 1)
      else s.(prevHash := GENESIS_PREV_HASH, seqNo := 1))
  }

  lemma LinkupKeeps(h: Hasher, st: Store, r: Record, now: int)
    ensures Keeps(r, now, Linkup(h, st, r, now)) && h.VerifySelf(Linkup(h, st, r, now))
  {
  }

  function AfterAppend(h: Hasher, st: Store, r: Record, now: int): Store {
    if r.corridor == "" then st
    else
      var c, x := Upper(r.corridor), Linkup(h, st, r, now);
      Store(st.files[c := FileOf(st, c) + [x]], st.tips[c := x])
  }

  /** Rotation of one corridor: a chain at or under the ceiling is untouched. */
  function RotateOne(h: Hasher, st: Store, c: string, n: nat): Store
    requires n > 0
  {
    var rs := FileOf(st, c);
    if |rs| <= n then st
    else
      var kept := Reseal(h, Newest(rs, n));
      Store(st.files[c := kept], st.tips[c := kept[|kept| - 1]])
  }

  /** Rotation of every indexed corridor. */
  function AfterRotate(h: Hasher, st: Store, n: nat): Store
    requires n > 0
  {
    Store(
      map c | c in st.files :: if c in st.tips then Rotated(h, st.files[c], n) else st.files[c],
      map c | c in st.tips ::
        if |FileOf(st, c)| <= n then st.tips[c] else Rotated(h, FileOf(st, c), n)[n - 1])
  }

  /** What `Open` indexes from the files it finds. */
  function TipsOf(files: map<string, seq<Record>>): map<string, Record> {
    map c | c in files && files[c] != [] :: files[c][|files[c]| - 1]
  }

  /** What one rotated chain is reported as. */
  datatype Rotation = Rotation(
    corridor: string, recordsBefore: nat, recordsAfter: nat,
    droppedSeqStart: int, droppedSeqEnd: int, newHeadSeq: int)

  function Report(c: string, rs: seq<Record>, n: nat): Rotation
    requires 0 < n < |rs|
  {
    Rotation(c, |rs|, n, rs[0].seqNo, rs[|rs| - n - 1].seqNo, rs[|rs| - n].seqNo)
  }

  class FileStore {
    const h: Hasher
    var files: map<string, seq<Record>>
    var tips: map<string, Record>

    function Abs(): Store reads this { Store(files, tips) }

    constructor (h: Hasher, files: map<string, seq<Record>>)
      ensures this.h == h && this.files == files && tips == map[]
    {
      this.h, this.files, tips := h, files, map[];
    }

    /** Every chain found is verified before the store is handed out. */
    static method Open(h: Hasher, disk: map<string, seq<Record>>) returns (r: Result<FileStore, Verdict>)
      ensures r.Ok? <==> forall c | c in disk :: Chained(h, disk[c])
      ensures r.Ok? ==> fresh(r.value) && r.value.h == h && r.value.Abs() == Store(disk, TipsOf(disk))
    {
      var s := new FileStore(h, disk);
      var todo := disk.Keys;
      while todo != {}
        invariant todo <= disk.Keys && s.files == disk && s.h == h && fresh(s)
        invariant forall c | c in disk && c !in todo :: Chained(h, disk[c])
        invariant s.tips == map c | c in disk && c !in todo && disk[c] != [] :: disk[c][|disk[c]| - 1]
        decreases |todo|
      {
        var c :| c in todo;
        var v := VerifyChain(h, disk[c]);
        if !v.Intact? {
          return Err(v);
        }
        if disk[c] != [] {
          s.tips := s.tips[c := disk[c][|disk[c]| - 1]];
        }
        todo := todo - {c};
      }
      r := Ok(s);
    }

    method Append(r: Record, now: int) returns (res: Result<Record, string>)
      modifies this
      ensures Abs() == AfterAppend(h, old(Abs()), r, now)
      ensures res == if r.corridor == "" then Err("record has no corridor") else Ok(Linkup(h, old(Abs()), r, now))
      ensures res.Ok? ==> Keeps(r, now, res.value) && h.VerifySelf(res.value)
    {
      hide Keeps;
      var corridor := Upper(r.corridor);
      if corridor == "" {
        return Err("record has no corridor");
      }
      var x := r.(version := VERSION);
      if x.recordedAt == 0 {
        x := x.(recordedAt := now);
      }
      x := x.(recordedAt := x.recordedAt - x.recordedAt % SECOND);
      if x.dependsOn.None? {
        x := x.(dependsOn := Some([]));
      }
      if x.rungs.None? {
        x := x.(rungs := Some([]));
      }
      if corridor !in tips {
        x := x.(prevHash := GENESIS_PREV_HASH, seqNo := 1);
      } else {
        x := x.(prevHash := tips[corridor].hash, seqNo := tips[corridor].seqNo + 1);
      }
      x := x.(hash := h.ComputeHash(x));
      assert x == Linkup(h, old(Abs()), r, now);
      LinkupKeeps(h, old(Abs()), r, now);
      var before := if corridor in files then files[corridor] else [];
      files := files[corridor := before + [x]];
      tips := tips[corridor := x];
      res := Ok(x);
    }

    /** Re-seal a window in place, head first. */
    method ResealWindow(kept: array<Record>)
      modifies kept
      ensures kept[..] == Reseal(h, old(kept[..]))
    {
      ghost var was := kept[..];
      for i := 0 to kept.Length
        invariant kept[..i] == Reseal(h, was[..i])
        invariant forall j | i <= j < kept.Length :: kept[j] == was[j]
      {
        kept[i] := kept[i].(prevHash := if i == 0 then GENESIS_PREV_HASH else kept[i - 1].hash);
        kept[i] := kept[i].(hash := h.ComputeHash(kept[i]));
        assert kept[..i] == Reseal(h, was[..i]);
        ResealSnoc(h, was, i);
        assert kept[..i + 1] == kept[..i] + [kept[i]];
      }
      assert was[..kept.Length] == was && kept[..kept.Length] == kept[..];
    }

    /** The newest `n` records, re-sealed as a chain of their own. */
    method Window(records: seq<Record>, n: nat) returns (window: seq<Record>)
      requires 0 < n < |records|
      ensures window == Reseal(h, Newest(records, n))
    {
      var dropped := |records| - n;
      var kept := new Record[n](i requires 0 <= i < n => records[dropped + i]);
      assert kept[..] == Newest(records, n);
      ResealWindow(kept);
      window := kept[..];
    }

    /** One corridor's share of `Rotate`: a chain that does not verify is refused
        and left as it was. */
    method RotateCorridor(c: string, n: nat) returns (res: Result<Option<Rotation>, Verdict>)
      requires n > 0
      modifies this
      ensures res.Ok? <==> Chained(h, FileOf(old(Abs()), c))
      ensures Abs() == if res.Ok? then RotateOne(h, old(Abs()), c, n) else old(Abs())
      ensures res.Ok? ==> res.value == if |FileOf(old(Abs()), c)| <= n then None
                                       else Some(Report(c, FileOf(old(Abs()), c), n))
    {
      var records := if c in files then files[c] else [];
      var v := VerifyChain(h, records);
      if !v.Intact? {
        return Err(v);
      }
      if |records| <= n {
        return Ok(None);
      }
      var dropped := |records| - n;
      var window := Window(records, n);
      WindowKeepsNumbering(h, records, n);
      v := VerifyChain(h, window);
      assert v.Intact?; // so the refusal to write an unverifiable window never fires
      files := files[c := window];
      tips := tips[c := window[|window| - 1]];
      res := Ok(Some(Rotation(c, |records|, |window|, records[0].seqNo, records[dropped - 1].seqNo, window[0].seqNo)));
    }

    /** Rotate the listed corridors in turn, stopping at the first whose chain
        does not verify. */
    method RotateListed(corridors: seq<string>, n: nat) returns (done: nat, out: seq<Rotation>)
      requires n > 0
      requires forall i | 0 <= i < |corridors| :: corridors[i] !in corridors[..i] && corridors[i] in tips
      modifies this
      ensures done <= |corridors| && RotatedSoFar(h, old(Abs()), Abs(), corridors[..done], n)
      ensures forall i | 0 <= i < done :: Chained(h, FileOf(old(Abs()), corridors[i]))
      ensures done < |corridors| ==> !Chained(h, FileOf(old(Abs()), corridors[done]))
      ensures forall r | r in out :: Reported(old(Abs()), r, n)
    {
      hide CorridorIs, RotatedSoFar, Chained, RotateOne, Rotated;
      ghost var was := Abs();
      out := [];
      done := 0;
      NothingRotated(h, was, n);
      assert corridors[..0] == [];
      while done < |corridors|
        invariant done <= |corridors| && RotatedSoFar(h, was, Abs(), corridors[..done], n)
        invariant forall i | 0 <= i < done :: Chained(h, FileOf(was, corridors[i]))
        invariant forall r | r in out :: Reported(was, r, n)
      {
        var c := corridors[done];
        ghost var mid := Abs();
        NotRotatedYet(h, was, mid, corridors[..done], c, n);
        var one := RotateCorridor(c, n);
        if one.Err? {
          return;
        }
        RotateOneMore(h, was, mid, corridors[..done], c, n);
        assert corridors[..done + 1] == corridors[..done] + [c];
        if one.value.Some? {
          out := out + [one.value.value];
        }
        done := done + 1;
      }
    }

    /** Rotate every indexed corridor, in ascending order. It succeeds exactly when
        every chain verifies; otherwise the corridors below the first whose chain does
        not verify have been rotated, and it and the rest are as they were. A chain
        that does not verify is never rewritten. */
    method Rotate(n: int) returns (res: Result<seq<Rotation>, string>)
      modifies this
      ensures n <= 0 ==> res.Err? && Abs() == old(Abs())
      ensures n > 0 ==> (res.Ok? <==> forall c | c in old(tips) :: Chained(h, FileOf(old(Abs()), c)))
      ensures res.Ok? ==> Abs() == AfterRotate(h, old(Abs()), n)
      ensures n > 0 && res.Err? ==>
                exists bad :: StopsAt(h, old(Abs()), bad) && RotatedBelow(h, old(Abs()), Abs(), bad, n)
      ensures forall c | !Chained(h, FileOf(old(Abs()), c)) :: FileOf(Abs(), c) == FileOf(old(Abs()), c)
      ensures res.Ok? ==> forall r | r in res.value :: Reported(old(Abs()), r, n)
    {
      if n <= 0 {
        return Err("rotation ceiling must be positive");
      }
      ghost var was := Abs();
      var corridors := ListBy(c => c, tips.Keys);
      DistinctListing(corridors);
      var done, out := RotateListed(corridors, n);
      forall c | !Chained(h, FileOf(was, c))
        ensures FileOf(Abs(), c) == FileOf(was, c)
      {
        assert CorridorIs(h, was, Abs(), c, c in corridors[..done], n);
      }
      if done < |corridors| {
        assert corridors[done] in was.tips;
        StoppedAt(h, was, Abs(), corridors, done, n);
        return Err("refusing to rotate a chain that does not verify");
      }
      assert corridors[..done] == corridors;
      AllRotated(h, was, Abs(), corridors, n);
      res := Ok(out);
    }
  }

  /** A reported rotation is of a chain above the ceiling and says what was cut. */
  predicate Reported(was: Store, r: Rotation, n: int) {
    |FileOf(was, r.corridor)| > n > 0 && r == Report(r.corridor, FileOf(was, r.corridor), n)
  }

  lemma WindowKeepsNumbering(h: Hasher, rs: seq<Record>, n: nat)
    requires 0 < n < |rs|
    ensures var w := Reseal(h, Newest(rs, n));
            Chained(h, w) && w[0].seqNo == rs[|rs| - n].seqNo
  {
    ResealIsChained(h, Newest(rs, n));
    var w := Reseal(h, Newest(rs, n));
    assert Contents(w)[0] == Contents(Newest(rs, n))[0];
    assert Content(w[0]) == Content(rs[|rs| - n]);
    assert w[0].seqNo == Content(w[0]).seqNo;
  }

  lemma DistinctListing(xs: seq<string>)
    requires AscendingBy((c: string) => c, xs)
    ensures forall i | 0 <= i < |xs| :: xs[i] !in xs[..i]
  {
    forall i | 0 <= i < |xs|
      ensures xs[i] !in xs[..i]
    {
      LessIrreflexive(xs[i]);
    }
  }

  /** Corridor `c` after rotation, if `rotated`, and as it was otherwise. */
  predicate CorridorIs(h: Hasher, was: Store, st: Store, c: string, rotated: bool, n: nat)
    requires n > 0
  {
    && FileOf(st, c) == (if rotated then Rotated(h, FileOf(was, c), n) else FileOf(was, c))
    && (c in was.tips <==> c in st.tips)
    && (c in was.tips ==>
          st.tips[c] == if rotated && |FileOf(was, c)| > n then Rotated(h, FileOf(was, c), n)[n - 1] else was.tips[c])
  }

  /** The corridors of `done` have been rotated and nothing else has changed. */
  ghost predicate RotatedSoFar(h: Hasher, was: Store, st: Store, done: seq<string>, n: nat)
    requires n > 0
  {
    st.files.Keys == was.files.Keys && forall c :: CorridorIs(h, was, st, c, c in done, n)
  }

  /** The first indexed corridor, in order, whose chain does not verify. */
  ghost predicate StopsAt(h: Hasher, st: Store, bad: string) {
    && bad in st.tips && !Chained(h, FileOf(st, bad))
    && forall c | c in st.tips && Less(c, bad) :: Chained(h, FileOf(st, c))
  }

  /** The indexed corridors below `bad` have been rotated and nothing else has changed. */
  ghost predicate RotatedBelow(h: Hasher, was: Store, st: Store, bad: string, n: nat)
    requires n > 0
  {
    st.files.Keys == was.files.Keys && forall c :: CorridorIs(h, was, st, c, c in was.tips && Less(c, bad), n)
  }

  lemma StoppedAt(h: Hasher, was: Store, st: Store, corridors: seq<string>, done: nat, n: nat)
    requires n > 0 && AscendingBy((c: string) => c, corridors) && forall c :: c in corridors <==> c in was.tips
    requires done < |corridors| && RotatedSoFar(h, was, st, corridors[..done], n)
    requires forall i | 0 <= i < done :: Chained(h, FileOf(was, corridors[i]))
    requires !Chained(h, FileOf(was, corridors[done]))
    ensures StopsAt(h, was, corridors[done]) && RotatedBelow(h, was, st, corridors[done], n)
  {
    hide Chained, CorridorIs;
    var bad := corridors[done];
    forall c
      ensures c in corridors[..done] <==> c in was.tips && Less(c, bad)
    {
      if c in was.tips && Less(c, bad) {
        var i :| 0 <= i < |corridors| && corridors[i] == c;
        if i > done {
          LessTransitive(c, bad, c);
        }
        LessIrreflexive(c);
      }
    }
  }

  lemma NothingRotated(h: Hasher, was: Store, n: nat)
    requires n > 0
    ensures RotatedSoFar(h, was, was, [], n)
  {
  }

  lemma NotRotatedYet(h: Hasher, was: Store, st: Store, done: seq<string>, c: string, n: nat)
    requires n > 0 && RotatedSoFar(h, was, st, done, n) && c !in done
    ensures FileOf(st, c) == FileOf(was, c)
  {
  }

  lemma RotateOneMore(h: Hasher, was: Store, st: Store, done: seq<string>, c: string, n: nat)
    requires n > 0 && c !in done && c in was.tips
    requires RotatedSoFar(h, was, st, done, n)
    ensures RotatedSoFar(h, was, RotateOne(h, st, c, n), done + [c], n)
  {
  }

  lemma AllRotated(h: Hasher, was: Store, st: Store, done: seq<string>, n: nat)
    requires n > 0 && RotatedSoFar(h, was, st, done, n)
    requires forall c :: c in done <==> c in was.tips
    ensures st == AfterRotate(h, was, n)
  {
    var want := AfterRotate(h, was, n);
    forall c
      ensures c in st.files ==> st.files[c] == want.files[c]
      ensures c in st.tips <==> c in want.tips
      ensures c in st.tips ==> st.tips[c] == want.tips[c]
    {
      assert CorridorIs(h, was, st, c, c in done, n);
    }
    assert st.files == want.files;
    assert st.tips == want.tips;
  }

  // --------------------------------------------------------------- whole runs

  /** A record handed in, a rotation, or a restart of the process. */
  datatype Op = AppendOp(r: Record, now: int) | RotateOp(n: nat) | Reopen

  ghost function Exec(h: Hasher, st: Store, op: Op): Store {
    match op
    case AppendOp(r, now) => AfterAppend(h, st, r, now)
    case RotateOp(n) => if n == 0 then st else AfterRotate(h, st, n)
    case Reopen =>
      if forall c | c in st.files :: Chained(h, st.files[c]) then Store(st.files, TipsOf(st.files)) else st
  }

  /** The store after a run that begins with an empty directory. */
  ghost function After(h: Hasher, ops: seq<Op>): Store {
    if ops == [] then Store(map[], map[]) else Exec(h, After(h, ops[..|ops| - 1]), ops[|ops| - 1])
  }

  /** Everything ever appended for a corridor, numbered from one. */
  function History(ops: seq<Op>, c: string): seq<Record> {
    if ops == [] then []
    else
      var past, op := History(ops[..|ops| - 1], c), ops[|ops| - 1];
      if op.AppendOp? && op.r.corridor != "" && Upper(op.r.corridor) == c
      then past + [Content(Stamp(op.r, op.now)).(seqNo := |past| + 1)]
      else past
  }

  /** The records handed in for a corridor, with the clock's reading at each. */
  function Handed(ops: seq<Op>, c: string): seq<(Record, int)> {
    if ops == [] then []
    else
      var past, op := Handed(ops[..|ops| - 1], c), ops[|ops| - 1];
      if Appends(op, c) then past + [(op.r, op.now)] else past
  }

  lemma {:induction false} HistoryKeepsWhatWasHanded(ops: seq<Op>, c: string)
    ensures |Handed(ops, c)| == |History(ops, c)|
    ensures forall i | 0 <= i < |History(ops, c)| :: Keeps(Handed(ops, c)[i].0, Handed(ops, c)[i].1, History(ops, c)[i])
  {
    if ops != [] {
      hide Keeps, Stamp, Content;
      var front, op := ops[..|ops| - 1], ops[|ops| - 1];
      HistoryKeepsWhatWasHanded(front, c);
      if Appends(op, c) {
        StampKeeps(op.r, op.now, |History(front, c)| + 1);
      }
    }
  }

  lemma StampKeeps(r: Record, now: int, n: int)
    ensures Keeps(r, now, Content(Stamp(r, now)).(seqNo := n))
  {
  }

  /** Nothing a caller handed in is lost or altered on the way to the file. After any run
      a corridor's file holds the newest of the records handed in for it, in order, each
      under its number: what the caller gave is kept, a list that was nil is empty, and
      the time is the second of the moment given or, if none was, of the append. */
  lemma StoredAsHanded(h: Hasher, ops: seq<Op>, c: string)
    ensures var rs, handed := FileOf(After(h, ops), c), Handed(ops, c);
            && |rs| <= |handed| && (handed != [] ==> rs != [])
            && forall j | 0 <= j < |rs| ::
                 var g := |handed| - |rs| + j;
                 rs[j].seqNo == g + 1 && Keeps(handed[g].0, handed[g].1, rs[j])
  {
    EveryRunIsFaithful(h, ops, c);
    HistoryKeepsWhatWasHanded(ops, c);
    hide After, History, Handed, Keeps, FileOf, Chained, Indexed, Contents, Content;
    WindowKeeps(FileOf(After(h, ops), c), History(ops, c), Handed(ops, c));
  }

  lemma WindowKeeps(rs: seq<Record>, history: seq<Record>, handed: seq<(Record, int)>)
    requires |rs| <= |history| == |handed| && Contents(rs) == history[|history| - |rs|..]
    requires forall i | 0 <= i < |history| :: history[i].seqNo == i + 1 && Keeps(handed[i].0, handed[i].1, history[i])
    ensures forall j | 0 <= j < |rs| ::
              var g := |handed| - |rs| + j;
              rs[j].seqNo == g + 1 && Keeps(handed[g].0, handed[g].1, rs[j])
  {
    forall j | 0 <= j < |rs|
      ensures rs[j].seqNo == |handed| - |rs| + j + 1
      ensures Keeps(handed[|handed| - |rs| + j].0, handed[|handed| - |rs| + j].1, rs[j])
    {
      var g := |handed| - |rs| + j;
      assert Content(rs[j]) == Contents(rs)[j] == history[g];
      hide Keeps;
      ContentKeeps(handed[g].0, handed[g].1, rs[j]);
    }
  }

  lemma ContentKeeps(given: Record, now: int, x: Record)
    requires Keeps(given, now, Content(x))
    ensures Keeps(given, now, x) && Content(x).seqNo == x.seqNo
  {
  }

  /** Two spellings name one corridor exactly when they differ in the case of ASCII letters
      only; its name is the one without small letters. */
  lemma SpellingsOfOneCorridor(a: string, b: string)
    ensures Upper(a) == Upper(b) <==>
              |a| == |b| && forall i | 0 <= i < |a| ::
                a[i] == b[i] || ('a' <= a[i] <= 'z' && b[i] == a[i] - 'a' + 'A') || ('a' <= b[i] <= 'z' && a[i] == b[i] - 'a' + 'A')
    ensures forall x | x in Upper(a) :: !('a' <= x <= 'z')
  {
    if Upper(a) == Upper(b) {
      assert forall i | 0 <= i < |a| :: UpperChar(a[i]) == Upper(a)[i] == Upper(b)[i] == UpperChar(b[i]);
    }
  }

  lemma {:induction false} HistoryIsNumbered(ops: seq<Op>, c: string)
    ensures forall i | 0 <= i < |History(ops, c)| :: History(ops, c)[i].seqNo == i + 1
  {
    if ops != [] {
      HistoryIsNumbered(ops[..|ops| - 1], c);
    }
  }

  /** A file is a verified chain whose contents are the newest part of everything
      ever appended. */
  predicate FaithfulFile(h: Hasher, rs: seq<Record>, history: seq<Record>) {
    && Chained(h, rs)
    && |rs| <= |history| && Contents(rs) == history[|history| - |rs|..]
    && (history != [] ==> rs != [])
  }

  /** The index holds the last record of the corridor's file. */
  predicate Indexed(st: Store, c: string) {
    var rs := FileOf(st, c);
    && (c in st.files <==> rs != []) && (c in st.tips <==> rs != [])
    && (rs != [] ==> st.tips[c] == rs[|rs| - 1])
  }

  predicate Faithful(h: Hasher, st: Store, c: string, history: seq<Record>) {
    FaithfulFile(h, FileOf(st, c), history) && Indexed(st, c)
  }

  lemma ExtendFile(h: Hasher, rs: seq<Record>, x: Record, history: seq<Record>)
    requires FaithfulFile(h, rs, history)
    requires h.VerifySelf(x) && x.prevHash == LastHash(rs)
    ensures FaithfulFile(h, rs + [x], history + [Content(x)])
  {
    ChainedSnoc(h, rs, x);
    assert Contents(rs + [x]) == Contents(rs) + [Content(x)];
    assert (history + [Content(x)])[|history| - |rs|..] == history[|history| - |rs|..] + [Content(x)];
  }

  lemma RotateFile(h: Hasher, rs: seq<Record>, n: nat, history: seq<Record>)
    requires n > 0 && FaithfulFile(h, rs, history)
    ensures FaithfulFile(h, Rotated(h, rs, n), history)
    ensures |Rotated(h, rs, n)| == |Newest(rs, n)|
  {
    hide Chained, Rotated, Newest;
    RotatedKeepsWindow(h, rs, n);
    RotatedContents(h, rs, n);
    NewestOfTail(history, |history| - |rs|, n);
  }

  lemma NewestOfTail(history: seq<Record>, d: nat, n: nat)
    requires d <= |history|
    ensures Newest(history[d..], n) == history[|history| - |Newest(history[d..], n)|..]
  {
  }

  lemma AppendIsFaithful(h: Hasher, st: Store, r: Record, now: int, history: seq<Record>)
    requires r.corridor != "" && Faithful(h, st, Upper(r.corridor), history)
    requires forall i | 0 <= i < |history| :: history[i].seqNo == i + 1
    ensures Faithful(h, AfterAppend(h, st, r, now), Upper(r.corridor),
                     history + [Content(Stamp(r, now)).(seqNo := |history| + 1)])
  {
    var c := Upper(r.corridor);
    var rs, x := FileOf(st, c), Linkup(h, st, r, now);
    assert Content(x) == Content(Stamp(r, now)).(seqNo := |history| + 1);
    ExtendFile(h, rs, x, history);
    assert FileOf(AfterAppend(h, st, r, now), c) == rs + [x];
  }

  lemma RotateIndexes(h: Hasher, st: Store, c: string, n: nat)
    requires n > 0 && Indexed(st, c)
    ensures FileOf(AfterRotate(h, st, n), c) == Rotated(h, FileOf(st, c), n)
    ensures Indexed(AfterRotate(h, st, n), c)
  {
    var rs := FileOf(st, c);
    assert |Rotated(h, rs, n)| == |Newest(rs, n)|;
  }

  lemma OtherCorridorsUntouched(h: Hasher, st: Store, r: Record, now: int, c: string)
    requires r.corridor == "" || Upper(r.corridor) != c
    ensures FileOf(AfterAppend(h, st, r, now), c) == FileOf(st, c)
    ensures Indexed(st, c) ==> Indexed(AfterAppend(h, st, r, now), c)
  {
  }

  lemma ReopenIsFaithful(h: Hasher, st: Store, c: string, history: seq<Record>)
    requires Faithful(h, st, c, history)
    ensures Faithful(h, Exec(h, st, Reopen), c, history)
  {
    assert c in st.files ==> st.files[c] == FileOf(st, c);
    assert FileOf(Store(st.files, TipsOf(st.files)), c) == FileOf(st, c);
    hide FaithfulFile, Indexed, TipsOf, Exec, FileOf;
  }

  lemma NothingIsFaithful(h: Hasher, c: string)
    ensures Faithful(h, Store(map[], map[]), c, [])
  {
  }

  /** For any run of appends, rotations and restarts, every corridor's file
      verifies and holds the newest part of everything ever appended, numbered by
      its place in the whole history; the index agrees with the file. */
  lemma {:induction false} EveryRunIsFaithful(h: Hasher, ops: seq<Op>, c: string)
    ensures Faithful(h, After(h, ops), c, History(ops, c))
    ensures forall i | 0 <= i < |History(ops, c)| :: History(ops, c)[i].seqNo == i + 1
  {
    HistoryIsNumbered(ops, c);
    hide FaithfulFile, Indexed, AfterAppend, AfterRotate, Stamp, Content, TipsOf, Upper;
    if ops == [] {
      NothingIsFaithful(h, c);
    } else {
      var front, op := ops[..|ops| - 1], ops[|ops| - 1];
      var st := After(h, front);
      EveryRunIsFaithful(h, front, c);
      match op
      case AppendOp(r, now) =>
        if r.corridor != "" && Upper(r.corridor) == c {
          AppendIsFaithful(h, st, r, now, History(front, c));
        } else {
          OtherCorridorsUntouched(h, st, r, now, c);
        }
      case RotateOp(n) =>
        if n > 0 {
          RotateFile(h, FileOf(st, c), n, History(front, c));
          RotateIndexes(h, st, c, n);
        }
      case Reopen =>
        ReopenIsFaithful(h, st, c, History(front, c));
    }
  }

  /** Restarting the process changes nothing: what `Open` rebuilds is what was there. */
  lemma ReopenIsIdentity(h: Hasher, ops: seq<Op>)
    ensures After(h, ops + [Reopen]) == After(h, ops)
  {
    var st := After(h, ops);
    assert (ops + [Reopen])[..|ops|] == ops;
    forall c
      ensures Indexed(st, c) && Chained(h, FileOf(st, c))
    {
      EveryRunIsFaithful(h, ops, c);
    }
    assert forall c | c in st.files :: st.files[c] == FileOf(st, c) && Indexed(st, c);
    assert forall c | c in st.tips :: Indexed(st, c);
    assert TipsOf(st.files) == st.tips;
  }

  predicate CeilingsAtLeast(ops: seq<Op>, n: nat) {
    forall i | 0 <= i < |ops| :: ops[i].RotateOp? && ops[i].n > 0 ==> ops[i].n >= n
  }

  predicate Appends(op: Op, c: string) { op.AppendOp? && op.r.corridor != "" && Upper(op.r.corridor) == c }

  lemma ExecLength(h: Hasher, st: Store, op: Op, c: string)
    requires Indexed(st, c)
    ensures |FileOf(Exec(h, st, op), c)| ==
              if Appends(op, c) then |FileOf(st, c)| + 1
              else if op.RotateOp? && op.n > 0 then |Newest(FileOf(st, c), op.n)|
              else |FileOf(st, c)|
  {
  }

  lemma HistoryLength(ops: seq<Op>, c: string)
    requires ops != []
    ensures |History(ops, c)| == |History(ops[..|ops| - 1], c)| + if Appends(ops[|ops| - 1], c) then 1 else 0
  {
  }

  lemma {:induction false} WindowNeverShorter(h: Hasher, ops: seq<Op>, c: string, n: nat)
    requires CeilingsAtLeast(ops, n)
    ensures |FileOf(After(h, ops), c)| >= |Newest(History(ops, c), n)|
  {
    if ops != [] {
      var front, op := ops[..|ops| - 1], ops[|ops| - 1];
      WindowNeverShorter(h, front, c, n);
      EveryRunIsFaithful(h, front, c);
      ExecLength(h, After(h, front), op, c);
      HistoryLength(ops, c);
      hide FaithfulFile, Indexed, Exec, FileOf, Appends, History;
    }
  }

  lemma {:induction false} HistoryIsContent(ops: seq<Op>, c: string)
    ensures Contents(History(ops, c)) == History(ops, c)
  {
    if ops != [] {
      HistoryIsContent(ops[..|ops| - 1], c);
      var past := History(ops[..|ops| - 1], c);
      assert forall i | 0 <= i < |past| :: Content(past[i]) == past[i] by {
        assert forall i | 0 <= i < |past| :: Contents(past)[i] == past[i];
      }
    }
  }

  /** The window a rotation leaves is determined by the history alone. */
  lemma RotatedFromHistory(h: Hasher, rs: seq<Record>, n: nat, history: seq<Record>)
    requires n > 0 && FaithfulFile(h, rs, history) && |rs| >= |Newest(history, n)|
    requires Contents(history) == history
    ensures Rotated(h, rs, n) == Reseal(h, Newest(history, n))
  {
    RotatedContents(h, rs, n);
    RotatedKeepsWindow(h, rs, n);
    ResealIsChained(h, Newest(history, n));
    ContentsOfNewest(history, n);
    assert Newest(history[|history| - |rs|..], n) == Newest(history, n);
    ContentsDetermineChain(h, Rotated(h, rs, n), Reseal(h, Newest(history, n)));
  }

  /** However appends, restarts and rotations with ceilings of at least `n` were
      interleaved before it, a rotation with ceiling `n` leaves exactly the newest
      min(total, n) records ever appended, chained from the genesis hash. The
      earlier rotations show nowhere, not even in the hashes. */
  lemma RotationForgetsEarlierRotations(h: Hasher, ops: seq<Op>, c: string, n: nat)
    requires n > 0 && CeilingsAtLeast(ops, n)
    ensures FileOf(After(h, ops + [RotateOp(n)]), c) == Reseal(h, Newest(History(ops, c), n))
  {
    assert (ops + [RotateOp(n)])[..|ops|] == ops;
    EveryRunIsFaithful(h, ops, c);
    WindowNeverShorter(h, ops, c, n);
    HistoryIsContent(ops, c);
    RotatedFromHistory(h, FileOf(After(h, ops), c), n, History(ops, c));
  }
}
