/** The byte stream behind the corpus digest: every (path, payload) pair in path order, both framed. */
module CorpusStream {
  import opened Wrappers
  import opened Framing

  type Path = seq<Byte>
  type Files = map<Path, seq<Byte>>

  // ----- path order -------------------------------------------------------------------------

  predicate Less(a: Path, b: Path) {
    if b == [] then false
    else if a == [] then true
    else a[0] < b[0] || (a[0] == b[0] && Less(a[1..], b[1..]))
  }

  /** The order of paths is the dictionary order of their bytes: the earlier one is a proper prefix of the other,
      or has the smaller byte where they first differ. */
  lemma {:induction false} LessIff(a: Path, b: Path)
    ensures Less(a, b) <==> (a != b && a <= b) || exists i :: FirstSmallerAt(a, b, i)
  {
    if a != [] && b != [] && a[0] == b[0] {
      LessIff(a[1..], b[1..]);
      SamePrefix(a, b);
      if i :| FirstSmallerAt(a[1..], b[1..], i) {
        assert FirstSmallerAt(a, b, i + 1);
      }
      if i :| FirstSmallerAt(a, b, i) {
        assert FirstSmallerAt(a[1..], b[1..], i - 1);
      }
    } else if a != [] && b != [] && a[0] < b[0] {
      assert FirstSmallerAt(a, b, 0);
    }
  }

  lemma SamePrefix(a: Path, b: Path)
    requires a != [] && b != [] && a[0] == b[0]
    ensures a <= b <==> a[1..] <= b[1..]
    ensures a == b <==> a[1..] == b[1..]
  {
    assert a == [a[0]] + a[1..] && b == [b[0]] + b[1..];
  }

  predicate FirstSmallerAt(a: Path, b: Path, i: int) {
    0 <= i < |a| && i < |b| && a[i] < b[i] && a[..i] == b[..i]
  }

  lemma {:induction false} LessTotal(a: Path, b: Path)
    ensures a == b || Less(a, b) || Less(b, a)
    ensures !(Less(a, b) && Less(b, a)) && !Less(a, a)
  {
    LessIrreflexive(a);
    if a == [] || b == [] {
    } else {
      LessTotal(a[1..], b[1..]);
      assert a == [a[0]] + a[1..] && b == [b[0]] + b[1..];
    }
  }

  lemma {:induction false} LessIrreflexive(a: Path)
    ensures !Less(a, a)
  {
    if a != [] {
      LessIrreflexive(a[1..]);
    }
  }

  lemma {:induction false} LessTransitive(a: Path, b: Path, c: Path)
    requires Less(a, b) && Less(b, c)
    ensures Less(a, c)
  {
    if a != [] && a[0] == b[0] == c[0] {
      LessTransitive(a[1..], b[1..], c[1..]);
    }
  }

  predicate IsLeast(p: Path, s: set<Path>) {
    p in s && forall q :: q in s ==> q == p || Less(p, q)
  }

  lemma {:induction false} LeastExists(s: set<Path>)
    requires s != {}
    ensures exists p :: p in s && IsLeast(p, s)
    decreases |s|
  {
    var x :| x in s;
    var rest := s - {x};
    if rest == {} {
      assert s == {x};
      assert IsLeast(x, s);
    } else {
      LeastExists(rest);
      var p :| p in rest && IsLeast(p, rest);
      LessTotal(x, p);
      var least := if Less(x, p) then x else p;
      forall q | q in s ensures q == least || Less(least, q) {
        if Less(x, p) && q != x && q != p {
          LessTransitive(x, p, q);
        }
      }
      assert IsLeast(least, s);
    }
  }

  lemma LeastUnique(p: Path, q: Path, s: set<Path>)
    requires IsLeast(p, s) && IsLeast(q, s)
    ensures p == q
  {
    LessTotal(p, q);
  }

  // ----- the stream -------------------------------------------------------------------------

  predicate Encodable(files: Files) {
    forall p :: p in files ==> Fits(4, p) && Fits(8, files[p])
  }

  function Entry(path: Path, payload: seq<Byte>): seq<Byte>
    requires Fits(4, path) && Fits(8, payload)
  {
    Frame(4, path) + Frame(8, payload)
  }

  /** The entries of `paths`, least path first. */
  ghost function Entries(files: Files, paths: set<Path>): seq<Byte>
    requires Encodable(files) && paths <= files.Keys
    decreases |paths|
  {
    if paths == {} then []
    else
      LeastExists(paths);
      var p :| p in paths && IsLeast(p, paths);
      Entry(p, files[p]) + Entries(files, paths - {p})
  }

  ghost function Stream(files: Files): seq<Byte>
    requires Encodable(files)
  {
    Entries(files, files.Keys)
  }

  /** The loop of `content_digest`: paths in sorted order, each length-prefixed with its payload. None
      stands for the overflow `to_bytes` raises when a length does not fit its prefix. */
  method FeedCorpus(files: Files) returns (fed: Option<seq<Byte>>)
    ensures fed == if Encodable(files) then Some(Stream(files)) else None
  {
    var hasher: seq<Byte> := [];
    var remaining := files.Keys;
    while remaining != {}
      invariant remaining <= files.Keys
      invariant forall p :: p in files && p !in remaining ==> Fits(4, p) && Fits(8, files[p])
      invariant Encodable(files) ==> Stream(files) == hasher + Entries(files, remaining)
      decreases |remaining|
    {
      LeastExists(remaining);
      var path :| path in remaining && IsLeast(path, remaining);
      if |path| >= Pow256(4) {
        return None;
      }
      var payload := files[path];
      if |payload| >= Pow256(8) {
        return None;
      }
      if Encodable(files) {
        EntriesOfLeast(files, remaining, path);
        FeedEntry(hasher, path, payload, Entries(files, remaining - {path}));
      }
      hasher := hasher + ToBytes(|path|, 4);
      hasher := hasher + path;
      hasher := hasher + ToBytes(|payload|, 8);
      hasher := hasher + payload;
      remaining := remaining - {path};
    }
    assert Encodable(files);
    assert hasher + [] == hasher;
    fed := Some(hasher);
  }

  /** The four updates of one iteration feed exactly that file's entry. */
  lemma FeedEntry(hasher: seq<Byte>, path: Path, payload: seq<Byte>, rest: seq<Byte>)
    requires Fits(4, path) && Fits(8, payload)
    ensures hasher + (Entry(path, payload) + rest)
            == hasher + ToBytes(|path|, 4) + path + ToBytes(|payload|, 8) + payload + rest
  {}

  lemma EntriesOfLeast(files: Files, paths: set<Path>, path: Path)
    requires Encodable(files) && paths <= files.Keys && path in paths && IsLeast(path, paths)
    ensures Entries(files, paths) == Entry(path, files[path]) + Entries(files, paths - {path})
  {
    LeastExists(paths);
    var p :| p in paths && IsLeast(p, paths)
      && Entries(files, paths) == Entry(p, files[p]) + Entries(files, paths - {p});
    LeastUnique(p, path, paths);
  }

  // ----- reading it back ----------------------------------------------------------------------

  /** Recovers the whole path-to-payload map, or None when the bytes are not a corpus stream. */
  function Decode(s: seq<Byte>): Option<Files>
    decreases |s|
  {
    if s == [] then Some(map[])
    else
      match ReadFrame(4, s)
      case None => None
      case Some((path, afterPath)) =>
        match ReadFrame(8, afterPath)
        case None => None
        case Some((payload, rest)) =>
          assert |rest| < |s|;
          match Decode(rest)
          case None => None
          case Some(others) => Some(others[path := payload])
  }

  lemma DecodeOfEntry(path: Path, payload: seq<Byte>, rest: seq<Byte>)
    requires Fits(4, path) && Fits(8, payload) && Decode(rest).Some?
    ensures Decode(Entry(path, payload) + rest) == Some(Decode(rest).value[path := payload])
  {
    EntryParts(path, payload, rest);
    ReadFrameOfFrame(4, path, Frame(8, payload) + rest);
    ReadFrameOfFrame(8, payload, rest);
  }

  lemma EntryParts(path: Path, payload: seq<Byte>, rest: seq<Byte>)
    requires Fits(4, path) && Fits(8, payload)
    ensures Entry(path, payload) + rest == Frame(4, path) + (Frame(8, payload) + rest)
    ensures Entry(path, payload) + rest != []
  {
    Associate(Frame(4, path), Frame(8, payload), rest);
    assert |Frame(4, path)| >= 4;
  }

  lemma Associate(a: seq<Byte>, b: seq<Byte>, c: seq<Byte>)
    ensures (a + b) + c == a + (b + c)
  {}

  lemma {:induction false} DecodeOfEntries(files: Files, paths: set<Path>)
    requires Encodable(files) && paths <= files.Keys
    ensures Decode(Entries(files, paths)) == Some(map p | p in paths :: files[p])
    decreases |paths|
  {
    if paths != {} {
      LeastExists(paths);
      var p :| p in paths && IsLeast(p, paths);
      EntriesOfLeast(files, paths, p);
      DecodeOfEntries(files, paths - {p});
      DecodeOfEntry(p, files[p], Entries(files, paths - {p}));
      AddBack(files, paths, p);
    }
  }

  lemma AddBack(files: Files, paths: set<Path>, p: Path)
    requires paths <= files.Keys && p in paths
    ensures (map q | q in paths :: files[q]) == (map q | q in paths - {p} :: files[q])[p := files[p]]
  {}

  /** The corpus stream is uniquely decodable. */
  lemma DecodeOfStream(files: Files)
    requires Encodable(files)
    ensures Decode(Stream(files)) == Some(files)
  {
    DecodeOfEntries(files, files.Keys);
    assert (map p | p in files.Keys :: files[p]) == files;
  }

  /** Two corpora feed the hash the same bytes only if they are the same corpus: renaming a file, or
      moving bytes between a path and a payload, changes the stream. */
  lemma StreamInjective(a: Files, b: Files)
    requires Encodable(a) && Encodable(b) && Stream(a) == Stream(b)
    ensures a == b
  {
    DecodeOfStream(a);
    DecodeOfStream(b);
  }

  // ----- the order of the entries ---------------------------------------------------------------

  /** Reads the paths of a stream one after the other, as they stand in it. */
  function PathsIn(s: seq<Byte>): Option<seq<Path>>
    decreases |s|
  {
    if s == [] then Some([])
    else
      match ReadFrame(4, s)
      case None => None
      case Some((path, afterPath)) =>
        match ReadFrame(8, afterPath)
        case None => None
        case Some((_, rest)) =>
          assert |rest| < |s|;
          match PathsIn(rest)
          case None => None
          case Some(others) => Some([path] + others)
  }

  ghost predicate AscendingPaths(paths: seq<Path>) {
    forall i, j :: 0 <= i < j < |paths| ==> Less(paths[i], paths[j])
  }

  lemma PathsOfEntry(path: Path, payload: seq<Byte>, rest: seq<Byte>)
    requires Fits(4, path) && Fits(8, payload) && PathsIn(rest).Some?
    ensures PathsIn(Entry(path, payload) + rest) == Some([path] + PathsIn(rest).value)
  {
    EntryParts(path, payload, rest);
    ReadFrameOfFrame(4, path, Frame(8, payload) + rest);
    ReadFrameOfFrame(8, payload, rest);
  }

  lemma AscendingFrom(p: Path, others: seq<Path>, paths: set<Path>)
    requires AscendingPaths(others) && IsLeast(p, paths)
    requires forall q :: q in others <==> q in paths - {p}
    ensures AscendingPaths([p] + others)
    ensures forall q :: q in [p] + others <==> q in paths
  {
    forall i | 0 <= i < |others| ensures Less(p, others[i]) {
      assert others[i] in others;
    }
  }

  lemma {:induction false} PathsOfEntries(files: Files, paths: set<Path>)
    requires Encodable(files) && paths <= files.Keys
    ensures var read := PathsIn(Entries(files, paths));
            read.Some? && AscendingPaths(read.value) && forall q :: q in read.value <==> q in paths
    decreases |paths|
  {
    if paths != {} {
      LeastExists(paths);
      var p :| p in paths && IsLeast(p, paths);
      EntriesOfLeast(files, paths, p);
      PathsOfEntries(files, paths - {p});
      PathsOfEntry(p, files[p], Entries(files, paths - {p}));
      AscendingFrom(p, PathsIn(Entries(files, paths - {p})).value, paths);
    }
  }

  /** Entry by entry the stream has exactly the corpus's paths, in strictly ascending order. */
  lemma StreamIsInPathOrder(files: Files)
    requires Encodable(files)
    ensures var read := PathsIn(Stream(files));
            read.Some? && AscendingPaths(read.value) && forall q :: q in read.value <==> q in files
  {
    PathsOfEntries(files, files.Keys);
  }
}
