/**
 A local destination of a given shape: a root that nests up to eight pages, every
 manifest of one size. It shows that the sizes other theorems speak of are reached.
 */
module ResolverFamily {
  import opened Wrappers
  import opened Text
  import opened MurlScheme
  import opened MurlRoundTrip
  import opened Manifest
  import opened Graph
  import opened Store
  import opened Resolver
  import opened ResolverLocate
  import opened ResolverInvariants
  import opened ResolverCycles
  import opened ResolverPins
  import Utf8

  // ----- names -----

  const LETTERS := "abcdefgh"

  function LocalNamed(segment: string): Murl {
    Murl(Local, [segment], Latest, None, None)
  }

  function Kid(i: nat): Murl
    requires i < |LETTERS|
  {
    LocalNamed([LETTERS[i]])
  }

  const ROOT := LocalNamed("r")

  lemma LetterDecodes(c: char)
    requires 'a' <= c <= 'z'
    ensures Utf8.Decode([c]) == Some([c]) && Utf8.IsBytes([c])
  {
    assert Utf8.Encode([c]) == [c] by {
      assert Utf8.EncodeChar(c) == [c] && Utf8.Encode([c][1..]) == [];
    }
    Utf8.DecodeEncode([c]);
  }

  lemma LetterValid(c: char)
    requires 'a' <= c <= 'z'
    ensures Valid(LocalNamed([c]))
  {
    LetterName(c);
    LetterPrints(c);
  }

  lemma LetterName(c: char)
    requires 'a' <= c <= 'z'
    ensures ValidName([[c]])
  {
    LetterDecodes(c);
    assert PlainText([c]);
  }

  lemma LetterPrints(c: char)
    requires 'a' <= c <= 'z'
    ensures Print(LocalNamed([c])) == "murl://local/" + [c] && |Print(LocalNamed([c]))| == 14
  {
    assert EncodeSegment([c][1..]) == [];
    assert EncodeSegment([c]) == [c];
    assert EncodeAll([[c]]) == [[c]];
    assert Decoration(LocalNamed([c])) == "";
  }

  lemma LettersApart(c: char, d: char)
    requires 'a' <= c <= 'z' && 'a' <= d <= 'z' && c != d
    ensures Identity(LocalNamed([c])) != Identity(LocalNamed([d]))
    ensures ManifestPath(LocalNamed([c])) != ManifestPath(LocalNamed([d]))
  {
    LetterValid(c);
    LetterValid(d);
    assert LocalNamed([c]).name[0] != LocalNamed([d]).name[0];
    IdentityInjective(LocalNamed([c]), LocalNamed([d]));
    PathInjective(LocalNamed([c]), LocalNamed([d]));
  }

  // ----- documents -----

  function Kids(n: nat): seq<Resource>
    requires n <= |LETTERS|
  {
    seq(n, i requires 0 <= i < n => Nest([LETTERS[i]], Kid(i), None))
  }

  function RootDoc(n: nat): Doc
    requires n <= |LETTERS|
  {
    Doc("family", None, Kids(n), None, None, None, [])
  }

  function Bytes(c: char, size: nat): string {
    seq(size, i => c)
  }

  function FamilyStore(n: nat, size: nat): map<FilePath, string>
    requires n <= |LETTERS|
  {
    (map i: nat | i < n :: ManifestPath(Kid(i)) := Bytes('p', size))[ManifestPath(ROOT) := Bytes('r', size)]
  }

  function FamilyWorld(n: nat, size: nat): World
    requires n <= |LETTERS|
  {
    World(FamilyStore(n, size), None, None,
          (b: string) => if b == Bytes('r', size) then Ok(RootDoc(n))
                         else if b == Bytes('p', size) then Ok(PAGE_DOC) else Err("not JSON"),
          (b: string, pin: string) => false, (authority: string, key: string) => false, 0)
  }

  function Numbers(n: nat): seq<nat> {
    seq(n, i requires 0 <= i < n => i)
  }

  lemma {:induction false} AtLeast(out: seq<nat>, j: nat)
    requires j < |out| && forall a, b :: 0 <= a < b < |out| ==> out[a] < out[b]
    ensures out[j] >= j
  {
    if j > 0 {
      AtLeast(out, j - 1);
    }
  }

  lemma {:induction false} AtMost(out: seq<nat>, j: nat)
    requires j < |out| && forall a, b :: 0 <= a < b < |out| ==> out[a] < out[b]
    requires forall a :: 0 <= a < |out| ==> out[a] < |out|
    ensures out[j] <= j
    decreases |out| - j
  {
    if j + 1 < |out| {
      AtMost(out, j + 1);
    }
  }

  // Without dependencies and orders a document is dispatched as it is written.
  lemma WrittenOrder(rs: seq<Resource>)
    requires forall i :: 0 <= i < |rs| ==> rs[i].dependsOn == [] && rs[i].order == 0
    ensures ExecutionOrder(rs) == Ok(Numbers(|rs|))
  {
    NoEdgesStableSort(rs);
    var out := ExecutionOrder(rs).value;
    forall a, b | 0 <= a < b < |out| ensures out[a] < out[b] {
      assert Before(rs, out[a], out[b]);
    }
    forall j | 0 <= j < |out| ensures out[j] == j {
      AtLeast(out, j);
      AtMost(out, j);
    }
    assert out == Numbers(|rs|);
  }

  // ----- what is stored -----

  predicate Suits(lim: Limits, n: nat, size: nat) {
    && n <= |LETTERS| && 0 < size <= lim.maxManifestBytes && lim.maxDepth >= 1
    && n <= lim.maxTotalResources
  }

  lemma BytesDiffer(size: nat)
    requires size > 0
    ensures Bytes('r', size) != Bytes('p', size)
  {
    assert Bytes('r', size)[0] != Bytes('p', size)[0];
  }

  lemma KidStored(lim: Limits, n: nat, size: nat, i: nat)
    requires Suits(lim, n, size) && i < n
    ensures Stored(FamilyWorld(n, size), lim, Kid(i), Bytes('p', size), PAGE_DOC, Numbers(1))
  {
    BytesDiffer(size);
    WrittenOrder(PAGE_DOC.resources);
    LettersApart(LETTERS[i], 'r');
  }

  lemma RootStored(lim: Limits, n: nat, size: nat)
    requires Suits(lim, n, size)
    ensures Stored(FamilyWorld(n, size), lim, ROOT, Bytes('r', size), RootDoc(n), Numbers(n))
  {
    WrittenOrder(Kids(n));
  }

  lemma FamilySound(n: nat, size: nat)
    requires n <= |LETTERS|
    ensures Sound(FamilyWorld(n, size))
  {
    RootWellFormed(n);
    assert PAGE_DOC.WellFormed();
    assert Decodes(FamilyWorld(n, size), RootDoc(n));
  }

  // Nothing but the root document and a page is ever decoded.
  ghost predicate Decodes(w: World, root: Doc) {
    forall b: string :: w.decode(b).Ok? ==> w.decode(b).value == root || w.decode(b).value == PAGE_DOC
  }

  lemma RootWellFormed(n: nat)
    requires n <= |LETTERS|
    ensures RootDoc(n).WellFormed()
  {
    forall i | 0 <= i < n ensures Valid(Kid(i)) {
      LetterValid(LETTERS[i]);
    }
    forall i, j | 0 <= i < j < n ensures Kids(n)[i].id != Kids(n)[j].id {
      LettersDiffer(i, j);
    }
  }

  lemma LettersDiffer(i: nat, j: nat)
    requires i < j < |LETTERS|
    ensures LETTERS[i] != LETTERS[j]
  {
  }

  // ----- resolving it -----

  // Kids from k on were not met, and there is room for them.
  ghost predicate Ahead(lim: Limits, n: nat, st: State, k: nat)
    requires k <= n <= |LETTERS|
  {
    && (forall i: nat :: k <= i < n ==> Identity(Kid(i)) !in st.stack && Identity(Kid(i)) !in st.visited)
    && st.manifests + (n - k) <= lim.maxNestedManifests
    && |st.plan| + (n - k) <= lim.maxTotalResources
  }

  // What resolving count kids adds: that many local names, each of the given size.
  ghost predicate Grown(st: State, st1: State, count: nat, size: nat) {
    && |st1.nodes| == |st.nodes| + count && |st1.log| == |st.log| + count
    && st.nodes <= st1.nodes && st.log <= st1.log && st1.stack == st.stack
    && (forall i :: |st.nodes| <= i < |st1.nodes| ==> |st1.nodes[i].bytes| == size)
    && (forall i :: |st.log| <= i < |st1.log| ==> st1.log[i].authority.Local?)
  }

  lemma GrownMore(st: State, st1: State, st2: State, count: nat, size: nat)
    requires Grown(st, st1, 1, size) && Grown(st1, st2, count, size)
    ensures Grown(st, st2, count + 1, size)
  {
  }

  lemma PageSpliced(w: World, lim: Limits, st: State, fr: Frame) returns (st1: State)
    requires fr.At(lim, 0) && fr.doc == PAGE_DOC && fr.order == Numbers(1) && |st.plan| + 1 <= lim.maxTotalResources
    ensures Splice(w, lim, st, fr, 0) == Done(st1)
    ensures st1.nodes == st.nodes && st1.log == st.log && st1.stack == st.stack && st1.visited == st.visited
    ensures st1.manifests == st.manifests && |st1.plan| <= |st.plan| + 1
  {
    st1 := OneRound(w, lim, st, fr, PAGE).st;
    assert Splice(w, lim, st1, fr, 1) == Done(st1);
  }

  lemma KidRound(lim: Limits, n: nat, size: nat, st: State, fr: Frame, k: nat) returns (st4: State)
    requires Suits(lim, n, size) && k < n && fr.At(lim, k) && Ahead(lim, n, st, k)
    requires fr.doc == RootDoc(n) && fr.order == Numbers(n) && fr.depth == 0 && fr.source == ThisDevice
    ensures Splice(FamilyWorld(n, size), lim, st, fr, k) == Splice(FamilyWorld(n, size), lim, st4, fr, k + 1)
    ensures Grown(st, st4, 1, size) && Ahead(lim, n, st4, k + 1)
  {
    var w, r := FamilyWorld(n, size), Nest([LETTERS[k]], Kid(k), None);
    KidStored(lim, n, size, k);
    var st2, inner := LocalInto(w, lim, st, fr, r, Kid(k), Bytes('p', size), PAGE_DOC, Numbers(1), 1);
    var st3 := PageSpliced(w, lim, st2, inner);
    SpliceInto(w, lim, st, fr, k, st2, inner, Identity(Kid(k)));
    st4 := Leave(st3, Identity(Kid(k)));
    KidLeft(n, st, st3, st4, k);
    KidGrown(st, st2, st4, Kid(k), size);
  }

  lemma KidGrown(st: State, st2: State, st4: State, child: Murl, size: nat)
    requires |st2.nodes| == |st.nodes| + 1 && st.nodes <= st2.nodes && |st2.nodes[|st.nodes|].bytes| == size
    requires st2.log == st.log + [child] && child.authority.Local?
    requires st4.nodes == st2.nodes && st4.log == st2.log && st4.stack == st.stack
    ensures Grown(st, st4, 1, size)
  {
  }

  lemma KidLeft(n: nat, st: State, st3: State, st4: State, k: nat)
    requires k < n <= |LETTERS|
    requires forall i: nat :: k <= i < n ==> Identity(Kid(i)) !in st.stack && Identity(Kid(i)) !in st.visited
    requires st3.stack == st.stack + [Identity(Kid(k))] && st3.visited == st.visited
    requires st4 == Leave(st3, Identity(Kid(k)))
    ensures st4.stack == st.stack
    ensures forall i: nat :: k + 1 <= i < n ==> Identity(Kid(i)) !in st4.stack && Identity(Kid(i)) !in st4.visited
  {
    forall i: nat | k + 1 <= i < n ensures Identity(Kid(i)) != Identity(Kid(k)) {
      LettersDiffer(k, i);
      LettersApart(LETTERS[i], LETTERS[k]);
    }
  }

  lemma {:induction false} KidsSpliced(lim: Limits, n: nat, size: nat, st: State, fr: Frame, k: nat)
    requires Suits(lim, n, size) && k <= n && fr.At(lim, k) && Ahead(lim, n, st, k)
    requires fr.doc == RootDoc(n) && fr.order == Numbers(n) && fr.depth == 0 && fr.source == ThisDevice
    ensures Splice(FamilyWorld(n, size), lim, st, fr, k).Done?
    ensures Grown(st, Splice(FamilyWorld(n, size), lim, st, fr, k).st, n - k, size)
    decreases n - k
  {
    if k < n {
      var next := k + 1;
      var st4 := KidRound(lim, n, size, st, fr, k);
      KidsSpliced(lim, n, size, st4, fr, next);
      GrownMore(st, st4, Splice(FamilyWorld(n, size), lim, st, fr, k).st, n - next, size);
    }
  }

  lemma KidsNew(n: nat, stack: seq<string>)
    requires n <= |LETTERS| && (stack == [] || stack == [Identity(ROOT)])
    ensures forall i: nat :: 0 <= i < n ==> Identity(Kid(i)) !in stack
  {
    forall i: nat | i < n ensures Identity(Kid(i)) !in stack {
      LettersApart(LETTERS[i], 'r');
    }
  }

  // Asked for by name, it has one manifest more than kids, each of the given size.
  lemma FamilyResolves(lim: Limits, n: nat, size: nat)
    requires Suits(lim, n, size) && n + 1 <= lim.maxNestedManifests
    ensures var o := ResolveName(FamilyWorld(n, size), lim, ROOT);
      && o.Done? && |o.st.nodes| == n + 1 == |o.st.log|
      && (forall i :: 0 <= i < |o.st.nodes| ==> |o.st.nodes[i].bytes| == size)
      && (forall i :: 0 <= i < |o.st.log| ==> o.st.log[i].authority.Local?)
  {
    var w, st0 := FamilyWorld(n, size), EMPTY_STATE.(stack := [Identity(ROOT)]);
    RootStored(lim, n, size);
    var st, fr := LocalArrives(w, lim, st0, ROOT, 0, None, Bytes('r', size), RootDoc(n), Numbers(n));
    KidsNew(n, st.stack);
    KidsSpliced(lim, n, size, st, fr, 0);
  }

  // Opened as a file, as well; the root is then not counted against the bound on manifests.
  lemma FamilyOpens(lim: Limits, n: nat, size: nat, path: string)
    requires Suits(lim, n, size) && n <= lim.maxNestedManifests
    ensures var o := ResolveFile(FamilyWorld(n, size), lim, path, Bytes('r', size));
      o.Done? && |o.st.nodes| == n + 1
  {
    var w, bytes := FamilyWorld(n, size), Bytes('r', size);
    WrittenOrder(Kids(n));
    OrderIndices(RootDoc(n).resources);
    var st := Open(w, lim, EMPTY_STATE, None, bytes, FromFile(path), 0, None).value.0;
    var fr := Open(w, lim, EMPTY_STATE, None, bytes, FromFile(path), 0, None).value.1;
    KidsSpliced(lim, n, size, st, fr, 0);
  }

  // The limits in force unless configured otherwise.
  const DEFAULT_LIMITS := Limits(3, 64, 8, 262144, 3600)

  // Under the default limits a file can resolve to nine manifests where a name is held to eight.
  lemma NineFromAFile(path: string)
    ensures var o := ResolveFile(FamilyWorld(8, 4096), DEFAULT_LIMITS, path, Bytes('r', 4096));
      o.Done? && |o.st.nodes| == DEFAULT_LIMITS.maxNestedManifests + 1
  {
    FamilyOpens(DEFAULT_LIMITS, 8, 4096, path);
  }
}
