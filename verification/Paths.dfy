/** Request paths as the routers see them: trimmed of slashes and split at slashes. */
module Paths {

  type Path = string

  function TrimRight(s: Path): (r: Path)
    ensures r <= s && (r != [] ==> r[|r| - 1] != '/')
  {
    if s != [] && s[|s| - 1] == '/' then TrimRight(s[..|s| - 1]) else s
  }

  function TrimLeft(s: Path): (r: Path)
    ensures |r| <= |s| && (r != [] ==> r[0] != '/' && r[|r| - 1] == s[|s| - 1])
  {
    if s != [] && s[0] == '/' then TrimLeft(s[1..]) else s
  }

  /** Slashes at either end do not matter. */
  function Trim(path: Path): (r: Path)
    ensures r != [] ==> r[0] != '/' && r[|r| - 1] != '/'
  {
    TrimLeft(TrimRight(path))
  }

  /** The segments between slashes (or another separator); there is always at least one. */
  function Split(s: string, sep: char := '/'): (r: seq<string>)
    ensures |r| > 0 && forall i :: 0 <= i < |r| ==> sep !in r[i]
  {
    if s == [] then [""]
    else
      var rest := Split(s[1..], sep);
      if s[0] == sep then [""] + rest else [[s[0]] + rest[0]] + rest[1..]
  }

  /** Nothing to split. */
  lemma {:induction false} SplitWithout(s: string, sep: char)
    requires sep !in s
    ensures Split(s, sep) == [s]
  {
    if s != [] {
      SplitWithout(s[1..], sep);
      assert [s[0]] + s[1..] == s;
    }
  }

  function Join(parts: seq<string>): string
    requires |parts| > 0
  {
    if |parts| == 1 then parts[0] else parts[0] + "/" + Join(parts[1..])
  }

  lemma {:induction false} JoinSplit(s: Path)
    ensures Join(Split(s)) == s
  {
    if s != [] {
      var rest := Split(s[1..]);
      JoinSplit(s[1..]);
      if s[0] == '/' {
        assert ([""] + rest)[1..] == rest;
        assert "" + "/" + Join(rest) == s;
      } else if |rest| > 1 {
        var all := [[s[0]] + rest[0]] + rest[1..];
        assert all[1..] == rest[1..];
        assert Join(all) == [s[0]] + (rest[0] + "/" + Join(rest[1..]));
        assert [s[0]] + Join(rest) == s;
      } else {
        assert [s[0]] + rest[0] == s;
      }
    }
  }

  /** A path that does not end in a slash does not end in an empty segment. */
  lemma {:induction false} LastSegment(s: Path)
    requires s != [] && s[|s| - 1] != '/'
    ensures Split(s)[|Split(s)| - 1] != ""
  {
    if |s| > 1 {
      LastSegment(s[1..]);
    } else {
      assert Split(s[1..]) == [""];
    }
  }

  /** Joining in two pieces is joining at once. */
  lemma {:induction false} JoinConcat(a: seq<string>, b: seq<string>)
    requires |a| > 0 && |b| > 0
    ensures Join(a + b) == Join(a) + "/" + Join(b)
  {
    if |a| == 1 {
      assert (a + b)[1..] == b;
    } else {
      JoinConcat(a[1..], b);
      assert (a + b)[1..] == a[1..] + b;
      assert a[0] + "/" + (Join(a[1..]) + "/" + Join(b)) == a[0] + "/" + Join(a[1..]) + "/" + Join(b);
    }
  }

  /** Slashes and nothing else. */
  predicate OnlySlashes(s: string) {
    forall i :: 0 <= i < |s| ==> s[i] == '/'
  }

  lemma Associates(a: string, b: string, c: string)
    ensures a + (b + c) == a + b + c
  {
  }

  lemma {:induction false} RightSlashes(s: Path) returns (b: string)
    ensures s == TrimRight(s) + b && OnlySlashes(b)
  {
    b := "";
    if s != [] && s[|s| - 1] == '/' {
      b := RightSlashes(s[..|s| - 1]);
      assert s == s[..|s| - 1] + "/";
      Associates(TrimRight(s), b, "/");
      b := b + "/";
    } else {
      assert s == s + "";
    }
  }

  lemma {:induction false} LeftSlashes(s: Path) returns (a: string)
    ensures s == a + TrimLeft(s) && OnlySlashes(a)
  {
    a := "";
    if s != [] && s[0] == '/' {
      a := LeftSlashes(s[1..]);
      assert s == "/" + s[1..];
      Associates("/", a, TrimLeft(s));
      a := "/" + a;
    } else {
      assert s == "" + s;
    }
  }

  /** Trimming removes the slashes at either end, and nothing else: what is left begins and ends
      in another character, or is empty. */
  lemma TrimIsBare(path: Path) returns (a: string, b: string)
    ensures path == a + Trim(path) + b && OnlySlashes(a) && OnlySlashes(b)
    ensures Trim(path) != [] ==> Trim(path)[0] != '/' && Trim(path)[|Trim(path)| - 1] != '/'
  {
    b := RightSlashes(path);
    a := LeftSlashes(TrimRight(path));
  }

  /** The segments that are routed, joined with slashes, are the path but for slashes at its ends,
      and no segment has a slash in it. */
  lemma SegmentsGiveBack(path: Path) returns (a: string, b: string)
    ensures path == a + Join(Split(Trim(path))) + b && OnlySlashes(a) && OnlySlashes(b)
    ensures forall seg :: seg in Split(Trim(path)) ==> '/' !in seg
  {
    a, b := TrimIsBare(path);
    JoinSplit(Trim(path));
  }

  /** Neither begins nor ends in a slash. */
  predicate Unslashed(s: string) {
    s != [] && s[0] != '/' && s[|s| - 1] != '/'
  }

  lemma {:induction false} TrimsRight(s: string, b: string)
    requires OnlySlashes(b) && s != [] && s[|s| - 1] != '/'
    ensures TrimRight(s + b) == s
  {
    if b == "" {
      assert s + b == s;
    } else {
      assert (s + b)[..|s + b| - 1] == s + b[..|b| - 1] && (s + b)[|s + b| - 1] == '/';
      TrimsRight(s, b[..|b| - 1]);
    }
  }

  lemma {:induction false} TrimsLeft(a: string, s: string)
    requires OnlySlashes(a) && s != [] && s[0] != '/'
    ensures TrimLeft(a + s) == s
  {
    if a == "" {
      assert a + s == s;
    } else {
      assert (a + s)[1..] == a[1..] + s && (a + s)[0] == '/';
      TrimsLeft(a[1..], s);
    }
  }

  lemma {:induction false} SplitJoin(parts: seq<string>)
    requires |parts| > 0 && forall p :: p in parts ==> '/' !in p
    ensures Split(Join(parts)) == parts
    decreases |parts|
  {
    assert parts[0] in parts;
    if |parts| == 1 {
      SplitWithout(parts[0], '/');
    } else {
      SplitJoin(parts[1..]);
      SplitAfter(parts[0], Join(parts[1..]));
      assert parts == [parts[0]] + parts[1..];
    }
  }

  lemma {:induction false} SplitAfter(part: string, rest: string)
    requires '/' !in part
    ensures Split(part + "/" + rest) == [part] + Split(rest)
  {
    var s := part + "/" + rest;
    if part == "" {
      assert s[1..] == rest;
    } else {
      assert s[1..] == part[1..] + "/" + rest;
      SplitAfter(part[1..], rest);
      assert [part[0]] + part[1..] == part;
    }
  }

  /** Whatever slashes stand around it, a path made of these segments is routed by exactly these
      segments. */
  lemma PathOfSegments(a: string, segs: seq<string>, b: string)
    requires OnlySlashes(a) && OnlySlashes(b) && |segs| > 0 && forall seg :: seg in segs ==> '/' !in seg
    requires Unslashed(Join(segs))
    ensures Split(Trim(a + Join(segs) + b)) == segs
  {
    TrimsRight(a + Join(segs), b);
    TrimsLeft(a, Join(segs));
    SplitJoin(segs);
  }
}
