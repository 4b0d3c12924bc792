/** Naming the images of a web archive so that none overwrites another. */
module ImageNames {
  import opened Ordering

  // ------------------------------------------------------------ decimal digits

  function Digit(d: nat): char
    requires d < 10
  {
    '0' + d as char
  }

  /** The decimal numeral of n. */
  function Decimal(n: nat): (r: string)
    ensures r != []
  {
    if n < 10 then [Digit(n)] else Decimal(n / 10) + [Digit(n % 10)]
  }

  lemma DigitDiffers(a: nat, b: nat)
    requires a < 10 && b < 10 && Digit(a) == Digit(b)
    ensures a == b
  {
    assert Digit(a) as int == '0' as int + a && Digit(b) as int == '0' as int + b;
  }

  /** Different numbers have different numerals. */
  lemma {:induction false} DecimalInjective(a: nat, b: nat)
    requires Decimal(a) == Decimal(b)
    ensures a == b
  {
    var s, t := Decimal(a), Decimal(b);
    assert s[|s| - 1] == Digit(a % 10) && t[|t| - 1] == Digit(b % 10);
    DigitDiffers(a % 10, b % 10);
    if a >= 10 {
      assert s[..|s| - 1] == Decimal(a / 10);
      assert |s| >= 2;
    }
    if b >= 10 {
      assert t[..|t| - 1] == Decimal(b / 10);
      assert |t| >= 2;
    }
    if a >= 10 && b >= 10 {
      DecimalInjective(a / 10, b / 10);
    }
  }

  // ----------------------------------------------------------------- file names

  /** str.rfind, or -1. */
  function LastIndex(s: string, c: char): (k: int)
    ensures -1 <= k < |s| && (k >= 0 ==> s[k] == c)
  {
    if s == [] then -1 else if s[|s| - 1] == c then |s| - 1 else LastIndex(s[..|s| - 1], c)
  }

  /** os.path.splitext: the extension starts at the last dot of the last path
      component, unless only dots come before it. */
  function SplitExt(name: string): (r: (string, string))
    ensures r.0 + r.1 == name
  {
    var sep := LastIndex(name, '/');
    var dot := LastIndex(name, '.');
    if dot > sep && exists i :: sep < i < dot && name[i] != '.' then (name[..dot], name[dot..]) else (name, "")
  }

  /** An image part of the archive: the file name it exposes, or none, the
      extension of its type, the fresh id drawn for it, and its encoded data. */
  datatype Part = Part(filename: string, ext: string, id: string, data: string)

  function FullName(part: Part): string {
    if SplitExt(part.filename).1 == "" then part.filename + part.ext else part.filename
  }

  function FreshPath(part: Part): string { "images/" + part.id + part.ext }

  function BasePath(part: Part): string { "images/" + FullName(part) }

  /** The path with a numeric suffix. */
  function Candidate(part: Part, k: nat): string {
    var split := SplitExt(FullName(part));
    "images/" + split.0 + "_" + Decimal(k) + split.1
  }

  lemma CandidatesDiffer(part: Part, j: nat, k: nat)
    requires Candidate(part, j) == Candidate(part, k)
    ensures j == k
  {
    var split := SplitExt(FullName(part));
    var head := "images/" + split.0 + "_";
    SamePart(head, Decimal(j), Decimal(k), split.1);
    DecimalInjective(j, k);
  }

  lemma SamePart(head: string, a: string, b: string, tail: string)
    requires head + a + tail == head + b + tail
    ensures a == b
  {
    var s, t := head + a + tail, head + b + tail;
    assert |a| == |b|;
    assert a == s[|head|..|head| + |a|] && b == t[|head|..|head| + |b|];
  }

  lemma CandidateIsNotBase(part: Part, k: nat)
    ensures Candidate(part, k) != BasePath(part)
  {
    assert |BasePath(part)| == 7 + |SplitExt(FullName(part)).0| + |SplitExt(FullName(part)).1|;
  }

  // ------------------------------------------------------------------ the search

  type Images = map<string, string>

  /** The paths tried before suffix k. */
  ghost function Tried(part: Part, k: nat): (r: set<string>)
    requires k >= 2
    ensures forall j: nat | 2 <= j < k :: Candidate(part, j) in r
    ensures forall p | p in r :: p == BasePath(part) || exists j: nat :: 2 <= j < k && p == Candidate(part, j)
  {
    if k == 2 then {BasePath(part)} else Tried(part, k - 1) + {Candidate(part, k - 1)}
  }

  lemma {:induction false} TriedCount(part: Part, k: nat)
    requires k >= 2
    ensures |Tried(part, k)| == k - 1
  {
    if k > 2 {
      TriedCount(part, k - 1);
      CandidateIsNotBase(part, k - 1);
      forall j: nat | 2 <= j < k - 1 ensures Candidate(part, j) != Candidate(part, k - 1) {
        if Candidate(part, j) == Candidate(part, k - 1) {
          CandidatesDiffer(part, j, k - 1);
        }
      }
    }
  }

  /** As long as every path tried is taken, the suffix is bounded by the number of
      images. */
  lemma SuffixBounded(part: Part, images: Images, k: nat)
    requires k >= 2 && Tried(part, k) <= images.Keys
    ensures k <= |images| + 1
  {
    TriedCount(part, k);
    Contained(Tried(part, k), images.Keys);
    assert |images.Keys| == |images|;
  }

  /** The path is the first unused one, and the suffix is bounded. */
  ghost predicate IsFirstUnused(part: Part, images: Images, path: string) {
    path !in images &&
    (path == BasePath(part) ||
     exists k: nat :: 2 <= k <= |images| + 1 && path == Candidate(part, k) && Tried(part, k) <= images.Keys)
  }

  method ImagePathForPart(part: Part, images: Images) returns (path: string)
    requires part.filename == "" ==> FreshPath(part) !in images
    ensures path !in images
    ensures part.filename == "" ==> path == FreshPath(part)
    ensures part.filename != "" ==> IsFirstUnused(part, images, path)
  {
    if part.filename == "" {
      return FreshPath(part);
    }
    var filename := part.filename;
    if SplitExt(filename).1 == "" {
      filename := filename + part.ext;
    }
    path := "images/" + filename;
    if path !in images {
      return;
    }
    var suffix := 2;
    var split := SplitExt(filename);
    while true
      invariant suffix >= 2 && Tried(part, suffix) <= images.Keys
      decreases |images| + 2 - suffix
    {
      SuffixBounded(part, images, suffix);
      path := "images/" + split.0 + "_" + Decimal(suffix) + split.1;
      assert path == Candidate(part, suffix);
      if path !in images {
        return;
      }
      suffix := suffix + 1;
    }
  }

  // ----------------------------------------------------------- a whole archive

  /** A path that the search may return for a part. */
  ghost predicate MayBe(part: Part, path: string) {
    if part.filename == "" then path == FreshPath(part)
    else path == BasePath(part) || exists k: nat :: path == Candidate(part, k)
  }

  /** Fresh ids are new: no other part can be given such a path. */
  ghost predicate FreshIds(parts: seq<Part>) {
    forall i, j | 0 <= i < j < |parts| ::
      (parts[i].filename == "" ==> !MayBe(parts[j], FreshPath(parts[i]))) &&
      (parts[j].filename == "" ==> !MayBe(parts[i], FreshPath(parts[j])))
  }

  ghost predicate AllDifferent(paths: seq<string>) {
    forall i, j | 0 <= i < j < |paths| :: paths[i] != paths[j]
  }

  /** Every entry has a path of its own, and there is nothing else. */
  ghost predicate Stores(images: Images, data: seq<string>, paths: seq<string>) {
    && |paths| == |data| == |images|
    && AllDifferent(paths)
    && (forall i | 0 <= i < |paths| :: paths[i] in images && images[paths[i]] == data[i])
    && (forall p | p in images :: p in paths)
  }

  function Data(parts: seq<Part>): (r: seq<string>)
    ensures |r| == |parts|
  {
    seq(|parts|, i requires 0 <= i < |parts| => parts[i].data)
  }

  ghost predicate Named(parts: seq<Part>, paths: seq<string>) {
    |paths| <= |parts| && forall i | 0 <= i < |paths| :: MayBe(parts[i], paths[i])
  }

  lemma FreshPathUnused(parts: seq<Part>, paths: seq<string>, i: nat)
    requires |paths| == i < |parts| && FreshIds(parts) && Named(parts, paths) && parts[i].filename == ""
    ensures FreshPath(parts[i]) !in paths
  {
    forall k | 0 <= k < |paths| ensures paths[k] != FreshPath(parts[i]) {
      assert MayBe(parts[k], paths[k]);
    }
  }

  lemma NamedOne(parts: seq<Part>, paths: seq<string>, path: string)
    requires Named(parts, paths) && |paths| < |parts| && MayBe(parts[|paths|], path)
    ensures Named(parts, paths + [path])
  {
    var all := paths + [path];
    forall i | 0 <= i < |all| ensures MayBe(parts[i], all[i]) {
      if i < |paths| {
        assert all[i] == paths[i] && MayBe(parts[i], paths[i]);
      }
    }
  }

  lemma ReturnedMayBe(part: Part, images: Images, path: string)
    requires if part.filename == "" then path == FreshPath(part) else IsFirstUnused(part, images, path)
    ensures MayBe(part, path)
  {
  }

  lemma StoreOne(images: Images, data: seq<string>, paths: seq<string>, path: string, datum: string)
    requires Stores(images, data, paths) && path !in images
    ensures Stores(images[path := datum], data + [datum], paths + [path])
  {
    var after := images[path := datum];
    assert after.Keys == images.Keys + {path};
    assert |after| == |after.Keys| && |images| == |images.Keys|;
    assert forall k | 0 <= k < |paths| :: paths[k] != path;
  }

  lemma DataNext(parts: seq<Part>, i: nat)
    requires i < |parts|
    ensures Data(parts[..i + 1]) == Data(parts[..i]) + [parts[i].data]
  {
  }

  lemma NameNext(parts: seq<Part>, paths: seq<string>, i: nat, images: Images, path: string)
    requires |paths| == i < |parts| && Named(parts, paths)
    requires if parts[i].filename == "" then path == FreshPath(parts[i]) else IsFirstUnused(parts[i], images, path)
    ensures Named(parts, paths + [path])
  {
    ReturnedMayBe(parts[i], images, path);
    NamedOne(parts, paths, path);
  }

  /** The loop over the image parts: each adds one entry, and none overwrites
      another. */
  method CollectImages(parts: seq<Part>) returns (images: Images, ghost paths: seq<string>)
    requires FreshIds(parts)
    ensures |images| == |parts|
    ensures forall i | 0 <= i < |parts| ::
      exists path :: path in images && images[path] == parts[i].data && MayBe(parts[i], path)
    ensures Stores(images, Data(parts), paths) && Named(parts, paths)
  {
    images, paths := map[], [];
    for i := 0 to |parts|
      invariant Stores(images, Data(parts[..i]), paths) && Named(parts, paths)
    {
      var part := parts[i];
      if part.filename == "" {
        FreshPathUnused(parts, paths, i);
      }
      var path := ImagePathForPart(part, images);
      DataNext(parts, i);
      StoreOne(images, Data(parts[..i]), paths, path, part.data);
      NameNext(parts, paths, i, images, path);
      images, paths := images[path := part.data], paths + [path];
    }
    assert parts[..|parts|] == parts;
  }
}
