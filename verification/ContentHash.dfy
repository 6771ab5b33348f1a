/** The artifact hash of a recorded snapshot: `Load`, `ContentHash` and
    `writeHashPart` of snapshot/snapshot.go. A byte is a character here. */
module ContentHash {
  import opened Results
  import opened Ordering

  type Bytes = string

  // ------------------------------------------------------------------ framing

  function Digit(d: nat): char requires d < 10 { "0123456789"[d] }

  /** `%d` of a length. */
  function Decimal(n: nat): string { if n < 10 then [Digit(n)] else Decimal(n / 10) + [Digit(n % 10)] }

  function Part(b: Bytes): Bytes { Decimal(|b|) + ":" + b }

  function Framed(parts: seq<Bytes>): (framed: Bytes)
    ensures parts != [] ==> framed != []
  {
    if parts == [] then [] else Part(parts[0]) + Framed(parts[1..])
  }

  lemma {:induction false} DecimalIsInjective(m: nat, n: nat)
    requires Decimal(m) == Decimal(n)
    ensures m == n
  {
    var s, t := Decimal(m), Decimal(n);
    assert s[|s| - 1] == t[|t| - 1];
    DecimalEnds(m);
    DecimalEnds(n);
    if m >= 10 && n >= 10 {
      assert s[..|s| - 1] == t[..|t| - 1];
      DecimalIsInjective(m / 10, n / 10);
    }
  }

  lemma {:induction false} DecimalEnds(n: nat)
    ensures |Decimal(n)| >= 1 && (n >= 10 <==> |Decimal(n)| >= 2)
    ensures Decimal(n)[|Decimal(n)| - 1] == Digit(n % 10) && ':' !in Decimal(n)
    ensures n >= 10 ==> Decimal(n)[..|Decimal(n)| - 1] == Decimal(n / 10)
  {
    if n >= 10 {
      DecimalEnds(n / 10);
    }
  }

  /** The first colon ends the length. */
  lemma {:induction false} ColonSplits(s: string, x: string, t: string, y: string)
    requires ':' !in s && ':' !in t && s + ":" + x == t + ":" + y
    ensures s == t && x == y
  {
    var l, r := s + ":" + x, t + ":" + y;
    assert forall i | 0 <= i < |s| :: l[i] == s[i];
    assert forall i | 0 <= i < |t| :: r[i] == t[i];
    assert l[|s|] == ':' && r[|t|] == ':';
    assert |s| == |t|;
    assert s == l[..|s|] && t == r[..|t|];
    assert x == l[|s| + 1..] && y == r[|t| + 1..];
  }

  lemma PartSplits(a: Bytes, x: Bytes, b: Bytes, y: Bytes)
    requires Part(a) + x == Part(b) + y
    ensures a == b && x == y
  {
    DecimalEnds(|a|);
    DecimalEnds(|b|);
    assert Part(a) + x == Decimal(|a|) + ":" + (a + x);
    assert Part(b) + y == Decimal(|b|) + ":" + (b + y);
    ColonSplits(Decimal(|a|), a + x, Decimal(|b|), b + y);
    DecimalIsInjective(|a|, |b|);
    assert a == (a + x)[..|a|] && b == (b + y)[..|a|];
    assert x == (a + x)[|a|..] && y == (b + y)[|a|..];
  }

  /** A framed list of parts can be taken apart in one way only. */
  lemma {:induction false} FramingIsInjective(ps: seq<Bytes>, qs: seq<Bytes>)
    requires Framed(ps) == Framed(qs)
    ensures ps == qs
  {
    if ps != [] && qs != [] {
      PartSplits(ps[0], Framed(ps[1..]), qs[0], Framed(qs[1..]));
      FramingIsInjective(ps[1..], qs[1..]);
      assert ps == [ps[0]] + ps[1..] && qs == [qs[0]] + qs[1..];
    }
  }

  // ------------------------------------------------------------ normalisation

  /** `ReplaceAll` of CRLF by LF. */
  function Normalise(b: Bytes): Bytes {
    if b == [] then []
    else if |b| >= 2 && b[0] == '\r' && b[1] == '\n' then "\n" + Normalise(b[2..])
    else [b[0]] + Normalise(b[1..])
  }

  /** A checkout that writes every LF as CRLF. */
  function Crlf(b: Bytes): Bytes { if b == [] then [] else (if b[0] == '\n' then "\r\n" else [b[0]]) + Crlf(b[1..]) }

  predicate HasCrlf(b: Bytes) { exists i | 0 <= i < |b| - 1 :: b[i] == '\r' && b[i + 1] == '\n' }

  /** Such a checkout of a recorded body is read as the body recorded. */
  lemma {:induction false} NormaliseUndoesCheckout(b: Bytes)
    requires !HasCrlf(b)
    ensures Normalise(Crlf(b)) == b && Normalise(b) == b
    ensures b != [] && b[0] != '\n' ==> Crlf(b)[0] == b[0]
  {
    if b != [] {
      var rest := b[1..];
      NormaliseUndoesCheckout(rest);
      assert b == [b[0]] + rest;
      if b[0] == '\n' {
        assert Crlf(b)[2..] == Crlf(rest);
      } else {
        assert Crlf(b)[1..] == Crlf(rest);
        assert rest != [] && b[0] == '\r' ==> rest[0] != '\n';
      }
    }
  }

  // ----------------------------------------------------------------- snapshots

  datatype Interaction = Interaction(key: string, bodyFile: string, bodySHA256: string)

  /** A snapshot directory: the manifest's bytes and those of the response files. */
  datatype Dir = Dir(manifest: Bytes, files: map<string, Bytes>)

  /** The parts of the format that are not modelled: how a manifest is read (None if it
      is refused), which file a body name leads to (None outside the responses), and
      the hash in hexadecimal. */
  datatype Format = Format(parse: Bytes -> Option<seq<Interaction>>, resolve: string -> Option<string>, sha: Bytes -> string)

  ghost predicate CollisionFree(sha: Bytes -> string) { forall x, y | sha(x) == sha(y) :: x == y }

  function BodyHash(f: Format, b: Bytes): string { "sha256:" + f.sha(b) }

  /** The body an interaction names, as `Load` accepts it. */
  function BodyOf(f: Format, d: Dir, i: Interaction): Option<Bytes> {
    match f.resolve(i.bodyFile)
    case None => None
    case Some(path) =>
      if path !in d.files then None
      else
        var body := Normalise(d.files[path]);
        if BodyHash(f, body) == i.bodySHA256 then Some(body) else None
  }

  predicate Loads(f: Format, d: Dir) {
    f.parse(d.manifest).Some? && forall i | i in f.parse(d.manifest).value :: BodyOf(f, d, i).Some?
  }

  /** The bodies by key: of two interactions under one key the later counts. */
  function Bodies(f: Format, d: Dir, ins: seq<Interaction>): map<string, Bytes>
    requires forall i | i in ins :: BodyOf(f, d, i).Some?
  {
    if ins == [] then map[]
    else Bodies(f, d, ins[..|ins| - 1])[ins[|ins| - 1].key := BodyOf(f, d, ins[|ins| - 1]).value]
  }

  lemma {:induction false} BodiesHasKeys(f: Format, d: Dir, ins: seq<Interaction>)
    requires forall i | i in ins :: BodyOf(f, d, i).Some?
    ensures forall i | i in ins :: i.key in Bodies(f, d, ins)
  {
    if ins != [] {
      BodiesHasKeys(f, d, ins[..|ins| - 1]);
      assert ins == ins[..|ins| - 1] + [ins[|ins| - 1]];
    }
  }

  method Load(f: Format, d: Dir) returns (r: Option<(seq<Interaction>, map<string, Bytes>)>)
    ensures r.Some? <==> Loads(f, d)
    ensures r.Some? ==> r.value.0 == f.parse(d.manifest).value && r.value.1 == Bodies(f, d, r.value.0)
  {
    var parsed := f.parse(d.manifest);
    if parsed.None? {
      return None;
    }
    var ins := parsed.value;
    var bodies: map<string, Bytes> := map[];
    for i := 0 to |ins|
      invariant forall k | 0 <= k < i :: BodyOf(f, d, ins[k]).Some?
      invariant bodies == Bodies(f, d, ins[..i])
    {
      assert ins[..i + 1][..i] == ins[..i];
      assert ins[i] in ins;
      var path := f.resolve(ins[i].bodyFile);
      if path.None? || path.value !in d.files {
        return None;
      }
      var body := Normalise(d.files[path.value]);
      if BodyHash(f, body) != ins[i].bodySHA256 {
        return None;
      }
      bodies := bodies[ins[i].key := body];
    }
    assert ins[..|ins|] == ins;
    return Some((ins, bodies));
  }

  const TAG := "wayfare.snapshot.content.v1\0"

  function FileOf(i: Interaction): string { i.bodyFile }

  /** The parts hashed for the interactions in file order. */
  function BodyParts(ins: seq<Interaction>, bodies: map<string, Bytes>): seq<Bytes>
    requires forall i | i in ins :: i.key in bodies
  {
    if ins == [] then []
    else BodyParts(ins[..|ins| - 1], bodies) + [ins[|ins| - 1].bodyFile, bodies[ins[|ins| - 1].key]]
  }

  function Sorted(ins: seq<Interaction>): (out: seq<Interaction>)
    ensures forall i :: i in out <==> i in ins
    ensures NonDescendingBy(FileOf, out) && multiset(out) == multiset(ins)
  {
    SortIsOrdered(FileOf, ins);
    assert forall i :: i in SortBy(FileOf, ins) <==> i in multiset(SortBy(FileOf, ins));
    SortBy(FileOf, ins)
  }

  /** Everything that is hashed, part by part. */
  function Parts(f: Format, d: Dir): seq<Bytes>
    requires Loads(f, d)
  {
    var ins := f.parse(d.manifest).value;
    BodiesHasKeys(f, d, ins);
    [d.manifest] + BodyParts(Sorted(ins), Bodies(f, d, ins))
  }

  function Preimage(f: Format, d: Dir): Bytes
    requires Loads(f, d)
  {
    TAG + Framed(Parts(f, d))
  }

  lemma {:induction false} FramedSnoc(parts: seq<Bytes>, p: Bytes)
    ensures Framed(parts + [p]) == Framed(parts) + Part(p)
  {
    hide Part;
    if parts == [] {
      assert Framed([p]) == Part(p) + Framed([p][1..]);
      assert [] + [p] == [p];
    } else {
      FramedSnoc(parts[1..], p);
      assert (parts + [p])[1..] == parts[1..] + [p];
    }
  }

  /** `ContentHash`: the running hash is fed the tag and each part in turn. */
  method ContentHash(f: Format, d: Dir) returns (r: Option<string>)
    ensures r == if Loads(f, d) then Some(BodyHash(f, Preimage(f, d))) else None
  {
    var loaded := Load(f, d);
    if loaded.None? {
      return None;
    }
    var (ins, bodies) := loaded.value;
    BodiesHasKeys(f, d, ins);
    hide Loads, Bodies;
    var sorted := Sorted(ins);
    var fed := FeedBodies(TAG + Part(d.manifest), sorted, bodies);
    Regroup(TAG, Part(d.manifest), Framed(BodyParts(sorted, bodies)), []);
    return Some("sha256:" + f.sha(fed));
  }

  lemma Regroup(a: Bytes, b: Bytes, c: Bytes, d: Bytes)
    ensures a + b + c + d == a + (b + c + d)
    ensures a + b + c == a + (b + c)
  {
  }

  method FeedBodies(start: Bytes, sorted: seq<Interaction>, bodies: map<string, Bytes>) returns (fed: Bytes)
    requires forall i | i in sorted :: i.key in bodies
    ensures fed == start + Framed(BodyParts(sorted, bodies))
  {
    fed := start;
    assert start + Framed([]) == start;
    for i := 0 to |sorted|
      invariant fed == start + Framed(BodyParts(sorted[..i], bodies))
    {
      BodyPartsSnoc(sorted, i, bodies);
      hide BodyParts, Framed, Part;
      Regroup(start, Framed(BodyParts(sorted[..i], bodies)), Part(sorted[i].bodyFile), Part(bodies[sorted[i].key]));
      fed := fed + Part(sorted[i].bodyFile) + Part(bodies[sorted[i].key]);
    }
    assert sorted[..|sorted|] == sorted;
  }

  lemma BodyPartsSnoc(ins: seq<Interaction>, i: nat, bodies: map<string, Bytes>)
    requires i < |ins| && forall x | x in ins :: x.key in bodies
    ensures Framed(BodyParts(ins[..i + 1], bodies))
         == Framed(BodyParts(ins[..i], bodies)) + Part(ins[i].bodyFile) + Part(bodies[ins[i].key])
  {
    var before, name, body := BodyParts(ins[..i], bodies), ins[i].bodyFile, bodies[ins[i].key];
    assert ins[..i + 1][..i] == ins[..i];
    assert BodyParts(ins[..i + 1], bodies) == before + [name] + [body];
    FramedSnoc(before, name);
    FramedSnoc(before + [name], body);
  }

  // -------------------------------------------------------------- main results

  /** The bytes hashed for an artifact of one interaction. */
  lemma PreimageOfOne(f: Format, d: Dir, i: Interaction)
    requires Loads(f, d) && f.parse(d.manifest) == Some([i])
    ensures BodyOf(f, d, i).Some?
    ensures var body := BodyOf(f, d, i).value;
            Preimage(f, d) == "wayfare.snapshot.content.v1\0"
              + (Decimal(|d.manifest|) + ":" + d.manifest
                 + (Decimal(|i.bodyFile|) + ":" + i.bodyFile + (Decimal(|body|) + ":" + body)))
  {
    var bodies, parts := Bodies(f, d, [i]), Parts(f, d);
    assert i in [i] && Bodies(f, d, [i][..0]) == map[];
    assert Sorted([i]) == [i] by {
      SortOfSorted(FileOf, [i]);
    }
    assert BodyParts([i], bodies) == BodyParts([], bodies) + [i.bodyFile, bodies[i.key]];
    assert parts == [d.manifest, i.bodyFile, BodyOf(f, d, i).value];
    hide Bodies, Sorted, BodyParts, Parts, Loads;
    FramedOfThree(d.manifest, i.bodyFile, BodyOf(f, d, i).value);
  }

  lemma FramedOfThree(a: Bytes, b: Bytes, c: Bytes)
    ensures Framed([a, b, c]) == Part(a) + (Part(b) + Part(c))
  {
    hide Part;
    assert Framed([]) == [];
    assert Framed([c]) == Part(c) by { assert [c][1..] == []; assert Part(c) + [] == Part(c); }
    assert Framed([b, c]) == Part(b) + Part(c) by { assert [b, c][1..] == [c]; }
    assert [a, b, c][1..] == [b, c];
  }

  /** With a collision-free hash, equal content hashes mean that the very same parts
      were hashed: the manifest's bytes and, in file order, names and bodies. */
  lemma HashPinsParts(f: Format, a: Dir, b: Dir)
    requires CollisionFree(f.sha) && Loads(f, a) && Loads(f, b)
    ensures BodyHash(f, Preimage(f, a)) == BodyHash(f, Preimage(f, b)) <==> Parts(f, a) == Parts(f, b)
    ensures Parts(f, a) == Parts(f, b) ==> a.manifest == b.manifest
  {
    var x, y := Preimage(f, a), Preimage(f, b);
    if BodyHash(f, x) == BodyHash(f, y) {
      assert BodyHash(f, x)[7..] == f.sha(x) && BodyHash(f, y)[7..] == f.sha(y);
      assert x[|TAG|..] == Framed(Parts(f, a)) && y[|TAG|..] == Framed(Parts(f, b));
      FramingIsInjective(Parts(f, a), Parts(f, b));
    }
    if Parts(f, a) == Parts(f, b) {
      assert Parts(f, a)[0] == a.manifest && Parts(f, b)[0] == b.manifest;
    }
  }

  predicate DistinctNames(ins: seq<Interaction>) {
    forall i, j | 0 <= i < j < |ins| :: ins[i].key != ins[j].key && ins[i].bodyFile != ins[j].bodyFile
  }

  lemma {:induction false} BodiesByKey(f: Format, d: Dir, ins: seq<Interaction>)
    requires DistinctNames(ins) && forall i | i in ins :: BodyOf(f, d, i).Some?
    ensures forall k :: k in Bodies(f, d, ins) <==> exists i | i in ins :: i.key == k
    ensures forall i | i in ins :: Bodies(f, d, ins)[i.key] == BodyOf(f, d, i).value
  {
    if ins != [] {
      hide BodyOf;
      var front, last := ins[..|ins| - 1], ins[|ins| - 1];
      assert ins == front + [last];
      BodiesByKey(f, d, front);
      assert forall k | 0 <= k < |front| :: ins[k].key != last.key;
    }
  }

  lemma {:induction false} SortedIsAscending(ins: seq<Interaction>)
    requires DistinctNames(ins)
    ensures AscendingBy(FileOf, Sorted(ins))
  {
    if ins != [] {
      var front, last := ins[..|ins| - 1], ins[|ins| - 1];
      SortedIsAscending(front);
      assert Sorted(ins) == InsertBy(FileOf, Sorted(front), last);
      forall y | y in Sorted(front)
        ensures FileOf(y) != FileOf(last)
      {
        var k :| 0 <= k < |front| && front[k] == y;
        assert ins[k] == y;
      }
      hide Sorted, DistinctNames;
      InsertKeepsAscending(FileOf, Sorted(front), last);
    }
  }

  lemma SameMembers<T>(xs: seq<T>, ys: seq<T>)
    requires multiset(xs) == multiset(ys)
    ensures forall x :: x in xs <==> x in ys
  {
    assert forall x :: x in xs <==> x in multiset(xs);
    assert forall x :: x in ys <==> x in multiset(ys);
  }

  lemma SameBodiesByKey(f: Format, d: Dir, ins: seq<Interaction>, jns: seq<Interaction>)
    requires DistinctNames(ins) && DistinctNames(jns) && forall i :: i in ins <==> i in jns
    requires forall i | i in ins :: BodyOf(f, d, i).Some?
    ensures Bodies(f, d, ins) == Bodies(f, d, jns)
  {
    BodiesByKey(f, d, ins);
    BodiesByKey(f, d, jns);
    hide BodyOf, Bodies, DistinctNames;
    var a, b := Bodies(f, d, ins), Bodies(f, d, jns);
    assert forall k :: k in a <==> k in b;
    forall k | k in a
      ensures a[k] == b[k]
    {
      var i :| i in ins && i.key == k;
    }
  }

  /** What is hashed after the manifest does not depend on the order in which the
      manifest lists its interactions. */
  lemma ListingOrderDoesNotMatter(f: Format, d: Dir, ins: seq<Interaction>, jns: seq<Interaction>)
    requires DistinctNames(ins) && DistinctNames(jns) && multiset(ins) == multiset(jns)
    requires forall i | i in ins :: BodyOf(f, d, i).Some?
    ensures forall i | i in jns :: i in ins
    ensures Bodies(f, d, ins) == Bodies(f, d, jns) && Sorted(ins) == Sorted(jns)
  {
    hide DistinctNames, BodyOf, Sorted, Bodies;
    SameMembers(ins, jns);
    SortedIsAscending(ins);
    SortedIsAscending(jns);
    AscendingIsUnique(FileOf, Sorted(ins), Sorted(jns));
    SameBodiesByKey(f, d, ins, jns);
  }

  /** Bodies are pinned one by one by the manifest they load under. */
  lemma {:induction false} ManifestPinsBodies(f: Format, a: Dir, b: Dir, ins: seq<Interaction>)
    requires CollisionFree(f.sha)
    requires forall i | i in ins :: BodyOf(f, a, i).Some? && BodyOf(f, b, i).Some?
    ensures forall i | i in ins :: BodyOf(f, a, i) == BodyOf(f, b, i)
    ensures Bodies(f, a, ins) == Bodies(f, b, ins)
  {
    if ins != [] {
      var front, last := ins[..|ins| - 1], ins[|ins| - 1];
      assert ins == front + [last];
      ManifestPinsBodies(f, a, b, front);
      var x, y := BodyOf(f, a, last).value, BodyOf(f, b, last).value;
      assert BodyHash(f, x)[7..] == f.sha(x) && BodyHash(f, y)[7..] == f.sha(y);
    }
  }

  /** So two directories that load have the same content hash exactly when their
      manifests are the same bytes, and then every body any interaction names is the
      same too, up to line endings, even where two interactions share a key and only
      the later body is hashed. */
  lemma HashPinsSnapshot(f: Format, a: Dir, b: Dir)
    requires CollisionFree(f.sha) && Loads(f, a) && Loads(f, b)
    ensures BodyHash(f, Preimage(f, a)) == BodyHash(f, Preimage(f, b)) <==> a.manifest == b.manifest
    ensures a.manifest == b.manifest ==>
              forall i | i in f.parse(a.manifest).value ::
                Normalise(a.files[f.resolve(i.bodyFile).value]) == Normalise(b.files[f.resolve(i.bodyFile).value])
  {
    HashPinsParts(f, a, b);
    if a.manifest == b.manifest {
      ManifestPinsBodies(f, a, b, f.parse(a.manifest).value);
    }
  }

  /** A checkout that turns LF into CRLF in the response files alone changes nothing. */
  lemma CheckoutKeepsHash(f: Format, d: Dir, e: Dir)
    requires Loads(f, d) && e.manifest == d.manifest && e.files.Keys == d.files.Keys
    requires forall p | p in d.files :: !HasCrlf(d.files[p]) && e.files[p] == Crlf(d.files[p])
    ensures Loads(f, e) && Preimage(f, e) == Preimage(f, d)
  {
    forall p | p in d.files
      ensures Normalise(e.files[p]) == Normalise(d.files[p])
    {
      NormaliseUndoesCheckout(d.files[p]);
    }
    SameBodies(f, d, e, f.parse(d.manifest).value);
  }

  lemma {:induction false} CrlfChangesLines(b: Bytes)
    ensures Crlf(b) == b <==> '\n' !in b
    ensures |Crlf(b)| >= |b| && ('\n' in b ==> |Crlf(b)| > |b|)
  {
    if b != [] {
      CrlfChangesLines(b[1..]);
      assert b == [b[0]] + b[1..];
    }
  }

  /** The manifest is hashed as it is read. A checkout that turns LF into CRLF there too
      may well load, but keeps its content hash exactly when the manifest has no line end
      to turn; a manifest as recorded always ends in one. */
  lemma CheckoutOfManifestShows(f: Format, d: Dir, e: Dir)
    requires CollisionFree(f.sha) && Loads(f, d) && Loads(f, e) && e.manifest == Crlf(d.manifest)
    ensures BodyHash(f, Preimage(f, e)) == BodyHash(f, Preimage(f, d)) <==> '\n' !in d.manifest
  {
    hide Preimage, Loads, BodyHash, Crlf;
    HashPinsSnapshot(f, e, d);
    CrlfChangesLines(d.manifest);
  }

  /** A whole artifact checked out so, when its manifest reads the same either way, which
      for JSON it does: it loads, and it is no longer the artifact its record names. */
  lemma WholeCheckoutIsRefused(f: Format, d: Dir, e: Dir)
    requires CollisionFree(f.sha) && Loads(f, d) && e.files.Keys == d.files.Keys
    requires forall p | p in d.files :: !HasCrlf(d.files[p]) && e.files[p] == Crlf(d.files[p])
    requires e.manifest == Crlf(d.manifest) && f.parse(e.manifest) == f.parse(d.manifest)
    ensures Loads(f, e)
    ensures BodyHash(f, Preimage(f, e)) == BodyHash(f, Preimage(f, d)) <==> '\n' !in d.manifest
  {
    var bodies := Dir(d.manifest, e.files);
    CheckoutKeepsHash(f, d, bodies);
    assert forall i | i in f.parse(d.manifest).value :: BodyOf(f, e, i) == BodyOf(f, bodies, i);
    CheckoutOfManifestShows(f, d, e);
  }

  lemma {:induction false} SameBodies(f: Format, d: Dir, e: Dir, ins: seq<Interaction>)
    requires e.files.Keys == d.files.Keys && forall p | p in d.files :: Normalise(e.files[p]) == Normalise(d.files[p])
    requires forall i | i in ins :: BodyOf(f, d, i).Some?
    ensures forall i | i in ins :: BodyOf(f, e, i).Some?
    ensures Bodies(f, e, ins) == Bodies(f, d, ins)
  {
    hide Normalise;
    if ins != [] {
      var front, last := ins[..|ins| - 1], ins[|ins| - 1];
      assert ins == front + [last];
      SameBodies(f, d, e, front);
    }
  }
}
