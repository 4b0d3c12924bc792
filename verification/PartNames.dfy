/** The paths given to image parts, in terms of their file names.
    Source: docreader/parser/mhtml_parser.py. */
module PartNames {
  import opened ImageNames

  /** A name that is not all dots before its last dot, which lies in its last
      path component: the dot and what follows are the extension. */
  ghost predicate IsExtension(name: string, stem: string, ext: string) {
    && name == stem + ext && ext != [] && ext[0] == '.'
    && '.' !in ext[1..] && '/' !in ext
    && exists i :: 0 <= i < |stem| && stem[i] !in "./" && '/' !in stem[i..]
  }

  lemma {:induction false} LastIs(s: string, c: char)
    ensures forall i | LastIndex(s, c) < i < |s| :: s[i] != c
  {
    if s != [] && s[|s| - 1] != c {
      LastIs(s[..|s| - 1], c);
    }
  }

  /** The name is split before its extension, or not at all if it has none. */
  lemma ExtensionExactly(name: string, stem: string, ext: string)
    requires ext != []
    ensures SplitExt(name) == (stem, ext) <==> IsExtension(name, stem, ext)
  {
    var sep, dot := LastIndex(name, '/'), LastIndex(name, '.');
    LastIs(name, '/');
    LastIs(name, '.');
    if IsExtension(name, stem, ext) {
      var i :| 0 <= i < |stem| && stem[i] !in "./" && '/' !in stem[i..];
      assert name[|stem|] == '.' && name[i] == stem[i];
      AfterDot(name, stem, ext, dot);
      BeforeStem(name, stem, ext, sep, i);
      assert name[..dot] == stem && name[dot..] == ext;
    }
    if SplitExt(name) == (stem, ext) {
      var i :| sep < i < dot && name[i] != '.';
      assert stem == name[..dot] && ext == name[dot..];
      assert forall k | i <= k < |name| :: name[k] != '/';
      assert stem[i] == name[i];
    }
  }

  lemma AfterDot(name: string, stem: string, ext: string, dot: int)
    requires name == stem + ext && ext != [] && ext[0] == '.' && '.' !in ext[1..]
    requires -1 <= dot < |name| && (dot >= 0 ==> name[dot] == '.') && forall i | dot < i < |name| :: name[i] != '.'
    ensures dot == |stem|
  {
    assert name[|stem|] == '.';
    forall j | |stem| < j < |name| ensures name[j] != '.' {
      assert name[j] == ext[1..][j - |stem| - 1];
    }
  }

  lemma BeforeStem(name: string, stem: string, ext: string, sep: int, i: nat)
    requires name == stem + ext && '/' !in ext && i < |stem| && '/' !in stem[i..]
    requires -1 <= sep < |name| && (sep >= 0 ==> name[sep] == '/')
    ensures sep < i
  {
    forall j | i <= j < |name| ensures name[j] != '/' {
      assert name[j] == if j < |stem| then stem[i..][j - i] else ext[j - |stem|];
    }
  }

  /** A name with an extension keeps it, and any number goes before it. */
  lemma NamedWithExtension(part: Part, stem: string, ext: string, k: nat)
    requires IsExtension(part.filename, stem, ext)
    ensures BasePath(part) == "images/" + part.filename
    ensures Candidate(part, k) == "images/" + stem + "_" + Decimal(k) + ext
  {
    ExtensionExactly(part.filename, stem, ext);
  }

  /** A name without one gets the extension of the part's type first. */
  lemma NamedWithout(part: Part, stem: string, ext: string, k: nat)
    requires forall stem, ext :: !IsExtension(part.filename, stem, ext)
    ensures BasePath(part) == "images/" + part.filename + part.ext
    ensures IsExtension(part.filename + part.ext, stem, ext) ==>
      Candidate(part, k) == "images/" + stem + "_" + Decimal(k) + ext
  {
    if ext != [] {
      ExtensionExactly(part.filename + part.ext, stem, ext);
    }
    var split := SplitExt(part.filename);
    if split.1 != [] {
      ExtensionExactly(part.filename, split.0, split.1);
    }
  }

  /** A part without a name is stored under its fresh id. */
  lemma FreshIs(part: Part)
    requires part.filename == ""
    ensures forall path :: MayBe(part, path) <==> path == "images/" + part.id + part.ext
  {
  }

  /** The numeral has no leading zero and is worth its number. */
  function Value(s: string): int { if s == [] then 0 else 10 * Value(s[..|s| - 1]) + (s[|s| - 1] as int - '0' as int) }

  lemma {:induction false} DecimalIs(n: nat)
    ensures Value(Decimal(n)) == n
    ensures forall i | 0 <= i < |Decimal(n)| :: '0' <= Decimal(n)[i] <= '9'
    ensures Decimal(n)[0] == '0' ==> n == 0
  {
    if n >= 10 {
      DecimalIs(n / 10);
      var s := Decimal(n);
      assert s[..|s| - 1] == Decimal(n / 10);
      assert s[0] == Decimal(n / 10)[0];
    } else {
      assert Decimal(n)[..0] == [] && Value([]) == 0;
    }
  }
}
