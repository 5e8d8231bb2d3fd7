/** Extraction of container image references from multi-document Kubernetes
    manifests: the text is split into documents, each document is decoded
    into an untyped tree, every `image` of an element of a `containers` or
    `initContainers` list is collected, and the comma-separated list in the
    `skopeo.io/extraimages` annotation is appended. */
module Manifests {
  import opened Wrappers
  import Strings

  /** An untyped decoded YAML/JSON value. A Go `map[string]interface{}` is an
      association list here: one entry per key, in one of the orders Go's map
      iteration may use. */
  datatype Value =
    | Map(entries: seq<(string, Value)>)
    | Array(items: seq<Value>)
    | Str(s: string)
    | Other

  /** One decoded document: its top-level mapping and the string-to-string
      annotations of its metadata, as the Kubernetes object wrapper reports them. */
  datatype Unstructured = Unstructured(tree: seq<(string, Value)>, annotations: map<string, string>)

  /** A fragment the decoder rejects (the command terminates with a fatal log there). */
  datatype ManifestError = UnmarshalFailed(fragment: string)

  /** The document separator: a newline followed by three dashes. */
  const YamlSeparator := "\n---"

  /** The annotation whose value lists extra images, separated by commas. */
  const ExtraImageAnnotation := "skopeo.io/extraimages"

  const ImageSeparator := ","

  // ---------------------------------------------------------------------------
  // The tree walk

  /** The keys whose array values hold container specifications. */
  predicate IsContainerKey(k: string) {
    k == "containers" || k == "initContainers"
  }

  /** Go's `m[key]` on an association list: the value of the first entry with that key. */
  function Lookup(entries: seq<(string, Value)>, key: string): (r: Option<Value>)
    ensures r.None? <==> forall i :: 0 <= i < |entries| ==> entries[i].0 != key
    ensures r.Some? ==> exists i :: 0 <= i < |entries| && entries[i] == (key, r.value)
  {
    if entries == [] then None
    else if entries[0].0 == key then Some(entries[0].1)
    else Lookup(entries[1..], key)
  }

  /** `fmt.Sprintf("%s", v)` for the values this model renders: a string is itself. */
  function Render(v: Value): string {
    if v.Str? then v.s else ""
  }

  /** The image one element of a container array contributes: present exactly
      when the element is a mapping with an `image` key. */
  function ElementImage(x: Value): Option<string> {
    if x.Map? && Lookup(x.entries, "image").Some? then Some(Render(Lookup(x.entries, "image").value))
    else None
  }

  /** The images of the elements of a container array, in array order. */
  function ContainerImages(xs: seq<Value>): seq<string> {
    if xs == [] then []
    else
      var last := ElementImage(xs[|xs| - 1]);
      ContainerImages(xs[..|xs| - 1]) + (if last.Some? then [last.value] else [])
  }

  /** The images the first `n` entries of a mapping contribute, in entry order. */
  function WalkUpTo(entries: seq<(string, Value)>, n: nat): seq<string>
    requires n <= |entries|
    decreases Map(entries), n
  {
    if n == 0 then []
    else WalkUpTo(entries, n - 1) + EntryImages(entries[n - 1].0, entries[n - 1].1)
  }

  /** The images one entry contributes: an array under a container key gives
      its elements' images, a nested mapping is walked, anything else gives none. */
  function EntryImages(k: string, v: Value): seq<string>
    decreases v, if v.Map? then |v.entries| + 1 else 0
  {
    match v
    case Array(xs) => if IsContainerKey(k) then ContainerImages(xs) else []
    case Map(sub) => WalkUpTo(sub, |sub|)
    case _ => []
  }

  /** All images of a mapping, entries taken in list order. */
  function WalkImages(entries: seq<(string, Value)>): seq<string> {
    WalkUpTo(entries, |entries|)
  }

  /** The entry `(k, v)` holds image `s`: `v` is an array under a container key
      with an element whose image is `s`, or `v` is a mapping one of whose
      entries holds `s`. */
  ghost predicate HoldsImage(k: string, v: Value, s: string)
    decreases v
  {
    match v
    case Array(xs) => IsContainerKey(k) && exists j :: 0 <= j < |xs| && ElementImage(xs[j]) == Some(s)
    case Map(sub) => exists i :: 0 <= i < |sub| && HoldsImage(sub[i].0, sub[i].1, s)
    case _ => false
  }

  /** Every image of a container array comes from one of its elements. */
  lemma {:induction false} ContainerImagesSound(xs: seq<Value>, s: string) returns (j: nat)
    requires s in ContainerImages(xs)
    ensures j < |xs| && ElementImage(xs[j]) == Some(s)
  {
    var init := xs[..|xs| - 1];
    var last := ElementImage(xs[|xs| - 1]);
    assert ContainerImages(xs) == ContainerImages(init) + (if last.Some? then [last.value] else []);
    if s in ContainerImages(init) {
      j := ContainerImagesSound(init, s);
      assert xs[j] == init[j];
    } else {
      j := |xs| - 1;
    }
  }

  /** Every element's image is an image of the container array. */
  lemma {:induction false} ContainerImagesComplete(xs: seq<Value>, j: nat, s: string)
    requires j < |xs| && ElementImage(xs[j]) == Some(s)
    ensures s in ContainerImages(xs)
  {
    var init := xs[..|xs| - 1];
    var last := ElementImage(xs[|xs| - 1]);
    assert ContainerImages(xs) == ContainerImages(init) + (if last.Some? then [last.value] else []);
    if j < |init| {
      assert init[j] == xs[j];
      ContainerImagesComplete(init, j, s);
    }
  }

  lemma ContainerImagesMembers(xs: seq<Value>, s: string)
    ensures s in ContainerImages(xs) <==> exists j :: 0 <= j < |xs| && ElementImage(xs[j]) == Some(s)
  {
    if s in ContainerImages(xs) {
      var j := ContainerImagesSound(xs, s);
    }
    if exists j :: 0 <= j < |xs| && ElementImage(xs[j]) == Some(s) {
      var j :| 0 <= j < |xs| && ElementImage(xs[j]) == Some(s);
      ContainerImagesComplete(xs, j, s);
    }
  }

  lemma {:induction false} WalkUpToMembers(entries: seq<(string, Value)>, n: nat, s: string)
    requires n <= |entries|
    ensures s in WalkUpTo(entries, n) <==> exists i :: 0 <= i < n && HoldsImage(entries[i].0, entries[i].1, s)
    decreases Map(entries), n
  {
    if n > 0 {
      WalkUpToMembers(entries, n - 1, s);
      EntryImagesMembers(entries[n - 1].0, entries[n - 1].1, s);
    }
  }

  lemma {:induction false} EntryImagesMembers(k: string, v: Value, s: string)
    ensures s in EntryImages(k, v) <==> HoldsImage(k, v, s)
    decreases v, if v.Map? then |v.entries| + 1 else 0
  {
    match v
    case Array(xs) => ContainerImagesMembers(xs, s);
    case Map(sub) => WalkUpToMembers(sub, |sub|, s);
    case _ =>
  }

  /** A string is among a mapping's walked images exactly when some entry of
      the mapping holds it: images come only from container arrays, reached
      only through nested mappings. */
  lemma WalkImagesMembers(entries: seq<(string, Value)>, s: string)
    ensures s in WalkImages(entries) <==> exists i :: 0 <= i < |entries| && HoldsImage(entries[i].0, entries[i].1, s)
  {
    WalkUpToMembers(entries, |entries|, s);
  }

  /** The walk of the first `n` entries sees only those entries. */
  lemma {:induction false} WalkUpToPrefix(a: seq<(string, Value)>, b: seq<(string, Value)>, n: nat)
    requires n <= |a| && n <= |b| && a[..n] == b[..n]
    ensures WalkUpTo(a, n) == WalkUpTo(b, n)
  {
    if n > 0 {
      assert a[..n - 1] == b[..n - 1];
      assert a[n - 1] == a[..n][n - 1];
      assert b[n - 1] == b[..n][n - 1];
      WalkUpToPrefix(a, b, n - 1);
    }
  }

  /** Walking a concatenation of entries concatenates the walks. */
  lemma {:induction false} WalkImagesAppend(a: seq<(string, Value)>, b: seq<(string, Value)>)
    ensures WalkImages(a + b) == WalkImages(a) + WalkImages(b)
    decreases |b|
  {
    if b == [] {
      assert a + b == a;
    } else {
      var b' := b[..|b| - 1];
      var last := b[|b| - 1];
      assert (a + b)[..|a + b| - 1] == a + b';
      assert (a + b)[|a + b| - 1] == last;
      WalkUpToPrefix(a + b, a + b', |a + b'|);
      WalkUpToPrefix(b, b', |b'|);
      assert WalkImages(a + b) == WalkImages(a + b') + EntryImages(last.0, last.1);
      assert WalkImages(b) == WalkImages(b') + EntryImages(last.0, last.1);
      WalkImagesAppend(a, b');
    }
  }

  /** A mapping of one entry contributes that entry's images. */
  lemma WalkImagesSingle(k: string, v: Value)
    ensures WalkImages([(k, v)]) == EntryImages(k, v)
  {
    assert WalkUpTo([(k, v)], 0) == [];
  }

  /** Go does not fix the order in which a map's entries are visited: every
      order yields the same images, up to their order. */
  lemma {:induction false} WalkImagesPermutation(a: seq<(string, Value)>, b: seq<(string, Value)>)
    requires multiset(a) == multiset(b)
    ensures multiset(WalkImages(a)) == multiset(WalkImages(b))
    decreases |a|
  {
    if a == [] {
      assert b == [];
    } else {
      var x := a[0];
      assert x in multiset(b);
      var j :| 0 <= j < |b| && b[j] == x;
      var b1, b2 := b[..j], b[j + 1..];
      assert b == b1 + [x] + b2;
      assert a == [x] + a[1..];
      assert multiset(a) == multiset{x} + multiset(a[1..]);
      assert multiset(b) == multiset(b1) + multiset{x} + multiset(b2);
      assert multiset(b1 + b2) == multiset(b1) + multiset(b2);
      assert multiset(a[1..]) == multiset(a) - multiset{x};
      assert multiset(b1 + b2) == multiset(b) - multiset{x};
      WalkImagesPermutation(a[1..], b1 + b2);
      WalkImagesAppend([x], a[1..]);
      WalkImagesAppend(b1 + [x], b2);
      WalkImagesAppend(b1, [x]);
      WalkImagesAppend(b1, b2);
      WalkImagesSingle(x.0, x.1);
    }
  }

  /** Entries that contribute the same images, up to order, position by
      position, give mappings with the same images, up to order. Go picks a new
      order in every nested call of the walk; with `WalkImagesPermutation` this
      lemma covers such a reordering one level per application, for nested
      mappings only (not the mapping elements of a container array). */
  lemma {:induction false} WalkImagesCongruent(a: seq<(string, Value)>, b: seq<(string, Value)>)
    requires |a| == |b|
    requires forall i :: 0 <= i < |a| ==> multiset(EntryImages(a[i].0, a[i].1)) == multiset(EntryImages(b[i].0, b[i].1))
    ensures multiset(WalkImages(a)) == multiset(WalkImages(b))
    decreases |a|
  {
    if a != [] {
      var n := |a| - 1;
      var a', b' := a[..n], b[..n];
      WalkUpToPrefix(a, a', n);
      WalkUpToPrefix(b, b', n);
      forall i | 0 <= i < |a'|
        ensures multiset(EntryImages(a'[i].0, a'[i].1)) == multiset(EntryImages(b'[i].0, b'[i].1))
      {
        assert a'[i] == a[i] && b'[i] == b[i];
      }
      WalkImagesCongruent(a', b');
    }
  }

  /** A nested mapping whose entries are visited in another order contributes
      the same images, up to order. */
  lemma EntryImagesPermutation(k: string, sub1: seq<(string, Value)>, sub2: seq<(string, Value)>)
    requires multiset(sub1) == multiset(sub2)
    ensures multiset(EntryImages(k, Map(sub1))) == multiset(EntryImages(k, Map(sub2)))
  {
    WalkImagesPermutation(sub1, sub2);
  }

  /** Reordering the entries of a mapping held by any entry leaves the
      images of the enclosing mapping unchanged up to order. */
  lemma NestedReorderAnywhere(a: seq<(string, Value)>, k: string, sub1: seq<(string, Value)>, sub2: seq<(string, Value)>, b: seq<(string, Value)>)
    requires multiset(sub1) == multiset(sub2)
    ensures multiset(WalkImages(a + [(k, Map(sub1))] + b)) == multiset(WalkImages(a + [(k, Map(sub2))] + b))
  {
    EntryImagesPermutation(k, sub1, sub2);
    WalkImagesAppend(a + [(k, Map(sub1))], b);
    WalkImagesAppend(a, [(k, Map(sub1))]);
    WalkImagesAppend(a + [(k, Map(sub2))], b);
    WalkImagesAppend(a, [(k, Map(sub2))]);
    WalkImagesSingle(k, Map(sub1));
    WalkImagesSingle(k, Map(sub2));
  }

  /** Example: reordering the entries of a mapping nested one level down, such as a
      Pod's `spec`, leaves the images unchanged up to order. */
  lemma NestedReorder(k: string, x: (string, Value), y: (string, Value))
    ensures multiset(WalkImages([(k, Map([x, y]))])) == multiset(WalkImages([(k, Map([y, x]))]))
  {
    assert multiset([x, y]) == multiset([y, x]);
    EntryImagesPermutation(k, [x, y], [y, x]);
    WalkImagesCongruent([(k, Map([x, y]))], [(k, Map([y, x]))]);
  }

  /** Scalars, and arrays under keys other than `containers` and
      `initContainers`, contribute nothing wherever they stand. */
  lemma WalkImagesIgnoresInert(a: seq<(string, Value)>, k: string, v: Value, b: seq<(string, Value)>)
    requires v.Str? || v.Other? || (v.Array? && !IsContainerKey(k))
    ensures WalkImages(a + [(k, v)] + b) == WalkImages(a + b)
  {
    WalkImagesAppend(a + [(k, v)], b);
    WalkImagesAppend(a, [(k, v)]);
    WalkImagesAppend(a, b);
    WalkImagesSingle(k, v);
  }

  /** `walkImage`: the images of a mapping, visiting its entries in list order
      and recursing into nested mappings. */
  method WalkImage(obj: seq<(string, Value)>) returns (images: seq<string>)
    ensures images == WalkImages(obj)
    decreases Map(obj)
  {
    images := [];
    for i := 0 to |obj|
      invariant images == WalkUpTo(obj, i)
    {
      var (k, v) := obj[i];
      if v.Array? {
        if IsContainerKey(k) {
          var items := v.items;
          ghost var before := images;
          for j := 0 to |items|
            invariant images == before + ContainerImages(items[..j])
          {
            assert items[..j + 1][..j] == items[..j];
            var element := items[j];
            if element.Map? {
              var image := Lookup(element.entries, "image");
              if image.Some? {
                images := images + [Render(image.value)];
              }
            }
          }
          assert items[..|items|] == items;
        }
      } else if v.Map? {
        var nested := WalkImage(v.entries);
        images := images + nested;
      }
    }
  }

  /** A tree shaped like a decoded Pod manifest with one container. */
  lemma BusyboxPod()
    ensures WalkImages([
      ("apiVersion", Str("v1")),
      ("kind", Str("Pod")),
      ("spec", Map([("containers", Array([Map([("image", Str("busybox"))])]))]))]) == ["busybox"]
  {
    var container := Map([("image", Str("busybox"))]);
    assert ElementImage(container) == Some("busybox");
    assert ContainerImages([container]) == ["busybox"] by {
      assert [container][..0] == [];
    }
    var spec := [("containers", Array([container]))];
    assert WalkImages(spec) == ["busybox"] by {
      WalkImagesSingle("containers", Array([container]));
    }
    var pod := [("apiVersion", Str("v1")), ("kind", Str("Pod")), ("spec", Map(spec))];
    assert pod == [("apiVersion", Str("v1"))] + [("kind", Str("Pod"))] + [("spec", Map(spec))];
    WalkImagesAppend([("apiVersion", Str("v1"))] + [("kind", Str("Pod"))], [("spec", Map(spec))]);
    WalkImagesAppend([("apiVersion", Str("v1"))], [("kind", Str("Pod"))]);
    WalkImagesSingle("apiVersion", Str("v1"));
    WalkImagesSingle("kind", Str("Pod"));
    WalkImagesSingle("spec", Map(spec));
  }

  // ---------------------------------------------------------------------------
  // Splitting and decoding the documents

  /** The fragments of the manifest text, empty ones included. */
  function Fragments(data: string): (parts: seq<string>)
    ensures |parts| >= 1
    ensures Strings.Join(parts, YamlSeparator) == data
    ensures forall i :: 0 <= i < |parts| ==> !Strings.Contains(parts[i], YamlSeparator)
  {
    Strings.JoinSplit(data, YamlSeparator);
    Strings.SplitPartsAvoidSeparator(data, YamlSeparator);
    Strings.Split(data, YamlSeparator)
  }

  /** The non-empty fragments, in order. */
  function NonEmpty(parts: seq<string>): seq<string> {
    if parts == [] then []
    else NonEmpty(parts[..|parts| - 1]) + (if parts[|parts| - 1] == "" then [] else [parts[|parts| - 1]])
  }

  /** Decoding the fragments one after the other: empty ones are skipped, the
      first one the decoder rejects ends the whole run. */
  function DecodeParts(parts: seq<string>, decode: string -> Option<Unstructured>): Result<seq<Unstructured>, ManifestError> {
    if parts == [] then Success([])
    else
      var prev :- DecodeParts(parts[..|parts| - 1], decode);
      var last := parts[|parts| - 1];
      if last == "" then Success(prev)
      else if decode(last).None? then Failure(UnmarshalFailed(last))
      else Success(prev + [decode(last).value])
  }

  /** Every non-empty fragment is one of the fragments, and every fragment that
      is non-empty is kept. */
  lemma {:induction false} NonEmptyFragments(parts: seq<string>)
    ensures forall k :: 0 <= k < |NonEmpty(parts)| ==> NonEmpty(parts)[k] != "" && NonEmpty(parts)[k] in parts
    ensures forall i :: 0 <= i < |parts| && parts[i] != "" ==> parts[i] in NonEmpty(parts)
  {
    if parts != [] {
      var init := parts[..|parts| - 1];
      NonEmptyFragments(init);
      forall i | 0 <= i < |init| ensures init[i] == parts[i] { }
    }
  }

  /** Keeping the non-empty fragments preserves their order and multiplicity:
      it distributes over concatenation. */
  lemma {:induction false} NonEmptyAppend(a: seq<string>, b: seq<string>)
    ensures NonEmpty(a + b) == NonEmpty(a) + NonEmpty(b)
    decreases |b|
  {
    if b == [] {
      assert a + b == a;
    } else {
      var b' := b[..|b| - 1];
      assert (a + b)[..|a + b| - 1] == a + b';
      assert (a + b)[|a + b| - 1] == b[|b| - 1];
      NonEmptyAppend(a, b');
    }
  }

  /** One fragment is kept exactly when it is non-empty. */
  lemma NonEmptySingle(x: string)
    ensures NonEmpty([x]) == if x == "" then [] else [x]
  {
    assert [x][..0] == [];
  }

  /** Decoding succeeds exactly when the decoder accepts every non-empty
      fragment, and then yields one document per non-empty fragment, in order. */
  lemma {:induction false} DecodePartsSuccess(parts: seq<string>, decode: string -> Option<Unstructured>)
    ensures DecodeParts(parts, decode).Success? <==> forall i :: 0 <= i < |parts| && parts[i] != "" ==> decode(parts[i]).Some?
    ensures DecodeParts(parts, decode).Success? ==>
      var docs := DecodeParts(parts, decode).value;
      |docs| == |NonEmpty(parts)| &&
      forall k :: 0 <= k < |docs| ==> decode(NonEmpty(parts)[k]) == Some(docs[k])
  {
    if parts != [] {
      var init := parts[..|parts| - 1];
      DecodePartsSuccess(init, decode);
      forall i | 0 <= i < |init| ensures init[i] == parts[i] { }
    }
  }

  /** On failure the reported fragment is the first non-empty fragment the
      decoder rejects. */
  lemma {:induction false} DecodePartsFailure(parts: seq<string>, decode: string -> Option<Unstructured>)
    requires DecodeParts(parts, decode).Failure?
    ensures exists i :: (0 <= i < |parts| &&
      DecodeParts(parts, decode).error == UnmarshalFailed(parts[i]) &&
      parts[i] != "" && decode(parts[i]).None? &&
      forall h :: 0 <= h < i && parts[h] != "" ==> decode(parts[h]).Some?)
  {
    var init := parts[..|parts| - 1];
    forall h | 0 <= h < |init| ensures init[h] == parts[h] { }
    if DecodeParts(init, decode).Failure? {
      DecodePartsFailure(init, decode);
    } else {
      DecodePartsSuccess(init, decode);
    }
  }

  /** Once a prefix of the fragments fails, decoding all of them fails the same way. */
  lemma {:induction false} DecodePartsFailureSticks(parts: seq<string>, n: nat, decode: string -> Option<Unstructured>)
    requires n <= |parts| && DecodeParts(parts[..n], decode).Failure?
    ensures DecodeParts(parts, decode) == DecodeParts(parts[..n], decode)
    decreases |parts| - n
  {
    if n < |parts| {
      assert parts[..n + 1][..n] == parts[..n];
      DecodePartsFailureSticks(parts, n + 1, decode);
      assert parts[..|parts|] == parts;
    } else {
      assert parts[..n] == parts;
    }
  }

  /** `unmarshalUnstructuredK8s`: decodes every non-empty fragment of the text.
      `decode` stands for the YAML decoder and the object wrapper; a rejected
      fragment is reported as an error instead of terminating the process. */
  method UnmarshalUnstructuredK8s(data: string, decode: string -> Option<Unstructured>)
    returns (r: Result<seq<Unstructured>, ManifestError>)
    ensures r == DecodeParts(Fragments(data), decode)
  {
    var parts := Fragments(data);
    var objs := [];
    for i := 0 to |parts|
      invariant DecodeParts(parts[..i], decode) == Success(objs)
    {
      assert parts[..i + 1][..i] == parts[..i];
      var part := parts[i];
      if |part| == 0 {
        continue;
      }
      var obj := decode(part);
      if obj.None? {
        DecodePartsFailureSticks(parts, i + 1, decode);
        return Failure(UnmarshalFailed(part));
      }
      objs := objs + [obj.value];
    }
    assert parts[..|parts|] == parts;
    return Success(objs);
  }

  // ---------------------------------------------------------------------------
  // Images of the documents

  /** The images the annotations add: the comma-split value of the extra-images
      annotation, pieces neither trimmed nor filtered. */
  function ExtraImages(annotations: map<string, string>): seq<string> {
    if ExtraImageAnnotation in annotations then Strings.Split(annotations[ExtraImageAnnotation], ImageSeparator)
    else []
  }

  /** The annotation loop of `parseImagesFromManifests`: visits the annotations
      in an arbitrary order and appends the split value of the extra-images one. */
  method AnnotationImages(annotations: map<string, string>) returns (extra: seq<string>)
    ensures extra == ExtraImages(annotations)
    ensures ExtraImageAnnotation in annotations ==> Strings.Join(extra, ImageSeparator) == annotations[ExtraImageAnnotation]
  {
    extra := [];
    var unvisited := annotations.Keys;
    while unvisited != {}
      invariant unvisited <= annotations.Keys
      invariant extra == if ExtraImageAnnotation in annotations && ExtraImageAnnotation !in unvisited then ExtraImages(annotations) else []
      decreases unvisited
    {
      var k :| k in unvisited;
      if k == ExtraImageAnnotation {
        extra := extra + Strings.Split(annotations[k], ImageSeparator);
      }
      unvisited := unvisited - {k};
    }
    if ExtraImageAnnotation in annotations {
      Strings.JoinSplit(annotations[ExtraImageAnnotation], ImageSeparator);
    }
  }

  /** The images of one document: its walked images, then the extra ones. */
  function DocumentImages(doc: Unstructured): seq<string> {
    WalkImages(doc.tree) + ExtraImages(doc.annotations)
  }

  /** The images of the documents, in document order. */
  function ManifestImages(docs: seq<Unstructured>): seq<string> {
    if docs == [] then []
    else ManifestImages(docs[..|docs| - 1]) + DocumentImages(docs[|docs| - 1])
  }

  /** Documents contribute their images in document order. */
  lemma {:induction false} ManifestImagesAppend(a: seq<Unstructured>, b: seq<Unstructured>)
    ensures ManifestImages(a + b) == ManifestImages(a) + ManifestImages(b)
    decreases |b|
  {
    if b == [] {
      assert a + b == a;
    } else {
      var b', last := b[..|b| - 1], b[|b| - 1];
      assert (a + b)[..|a + b| - 1] == a + b';
      assert (a + b)[|a + b| - 1] == last;
      assert ManifestImages(a + b) == ManifestImages(a + b') + DocumentImages(last);
      assert ManifestImages(b) == ManifestImages(b') + DocumentImages(last);
      ManifestImagesAppend(a, b');
    }
  }

  /** The images of one document are its walked images, then its extra ones. */
  lemma ManifestImagesSingle(doc: Unstructured)
    ensures ManifestImages([doc]) == WalkImages(doc.tree) + ExtraImages(doc.annotations)
  {
    assert [doc][..0] == [];
  }

  /** The extra-images annotation `a,b,c` adds the images `a`, `b` and `c`, in that order. */
  lemma ExtraImagesExample()
    ensures ExtraImages(map[ExtraImageAnnotation := "a,b,c"]) == ["a", "b", "c"]
  {
    assert "c"[..1] != "," && "c"[1..] == "";
    assert Strings.Split("", ",") == [""];
    assert ['c'] + "" == "c";
    assert Strings.Split("c", ",") == ["c"];
    assert ",c"[..1] == "," && ",c"[1..] == "c";
    assert Strings.Split(",c", ",") == ["", "c"];
    assert "b,c"[..1] != "," && "b,c"[1..] == ",c";
    assert ['b'] + "" == "b";
    assert Strings.Split("b,c", ",") == ["b", "c"];
    assert ",b,c"[..1] == "," && ",b,c"[1..] == "b,c";
    assert Strings.Split(",b,c", ",") == ["", "b", "c"];
    assert "a,b,c"[..1] != "," && "a,b,c"[1..] == ",b,c";
    assert ['a'] + "" == "a";
  }

  /** `parseImagesFromManifests`: the images of all the documents of the text,
      or the decoding error. */
  method ParseImagesFromManifests(yaml: string, decode: string -> Option<Unstructured>)
    returns (r: Result<seq<string>, ManifestError>)
    ensures r.Failure? <==> DecodeParts(Fragments(yaml), decode).Failure?
    ensures r.Failure? ==> r.error == DecodeParts(Fragments(yaml), decode).error
    ensures r.Success? ==> r.value == ManifestImages(DecodeParts(Fragments(yaml), decode).value)
  {
    var objs :- UnmarshalUnstructuredK8s(yaml, decode);
    var images := [];
    for i := 0 to |objs|
      invariant images == ManifestImages(objs[..i])
    {
      assert objs[..i + 1][..i] == objs[..i];
      var walked := WalkImage(objs[i].tree);
      images := images + walked;
      var extra := AnnotationImages(objs[i].annotations);
      images := images + extra;
    }
    assert objs[..|objs|] == objs;
    return Success(images);
  }
}
