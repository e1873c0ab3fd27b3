/** Path strings: how the server prints them, how a replica parses them, and
    exactly which paths survive the trip. */
module Paths {
  import opened Delta

  /** src/delta.rs `join_path`: no escaping, and "/" is the empty prefix. */
  function JoinPath(base: string, key: string): string {
    if base == "/" then "/" + key else base + "/" + key
  }

  /** The string `diff_at` has accumulated when it stands at `p`. */
  function PrintPath(p: Path): string
    decreases |p|
  {
    if p == [] then "/" else JoinPath(PrintPath(p[..|p| - 1]), p[|p| - 1])
  }

  /** Split on '/', as Python's and JavaScript's `split` do: never empty. */
  function Split(s: string): (parts: Path)
    ensures parts != []
    decreases |s|
  {
    if s == "" then [""]
    else
      var rest := Split(s[1..]);
      if s[0] == '/' then [""] + rest else [[s[0]] + rest[0]] + rest[1..]
  }

  function ParsePath(path: string): Path {
    if path == "/" then []
    else Split(if path == "" then "" else path[1..])
  }

  predicate SlashFree(seg: string) {
    '/' !in seg
  }

  predicate AllSlashFree(p: Path) {
    forall i | 0 <= i < |p| :: SlashFree(p[i])
  }

  /** Paths the wire format can express. */
  predicate SafePath(p: Path) {
    AllSlashFree(p) && (p != [] ==> p[0] != "")
  }

  // ---------- joining and splitting ----------

  function Join(p: Path): string
    requires p != []
    decreases |p|
  {
    if |p| == 1 then p[0] else p[0] + "/" + Join(p[1..])
  }

  lemma {:induction false} SplitSegment(seg: string, rest: string)
    requires SlashFree(seg)
    ensures Split(seg) == [seg]
    ensures Split(seg + "/" + rest) == [seg] + Split(rest)
    decreases |seg|
  {
    var s := seg + "/" + rest;
    if seg == "" {
      assert s[1..] == rest;
    } else {
      assert s[1..] == seg[1..] + "/" + rest;
      SplitSegment(seg[1..], rest);
      assert [seg[0]] + seg[1..] == seg;
      assert ([seg[1..]] + Split(rest))[1..] == Split(rest);
    }
  }

  lemma {:induction false} SplitJoin(p: Path)
    requires p != [] && AllSlashFree(p)
    ensures Split(Join(p)) == p
    decreases |p|
  {
    if |p| == 1 {
      SplitSegment(p[0], "");
    } else {
      assert AllSlashFree(p[1..]);
      SplitJoin(p[1..]);
      assert SlashFree(p[0]);
      SplitSegment(p[0], Join(p[1..]));
    }
  }

  lemma {:induction false} SplitIsSlashFree(s: string)
    ensures AllSlashFree(Split(s))
    decreases |s|
  {
    if s != "" {
      SplitIsSlashFree(s[1..]);
      assert SlashFree(Split(s[1..])[0]);
    }
  }

  lemma {:induction false} JoinSnoc(p: Path, key: string)
    requires p != []
    ensures Join(p + [key]) == Join(p) + "/" + key
    decreases |p|
  {
    if |p| > 1 {
      assert (p + [key])[1..] == p[1..] + [key];
      JoinSnoc(p[1..], key);
      assert p[0] + "/" + (Join(p[1..]) + "/" + key) == p[0] + "/" + Join(p[1..]) + "/" + key;
    }
  }

  lemma {:induction false} PrintIsJoin(p: Path)
    requires p != [] && p[0] != ""
    ensures PrintPath(p) == "/" + Join(p) && Join(p) != ""
    decreases |p|
  {
    var q, key := p[..|p| - 1], p[|p| - 1];
    assert p == q + [key];
    if q == [] {
      assert PrintPath(q) == "/";
    } else {
      PrintIsJoin(q);
      JoinSnoc(q, key);
      assert ("/" + Join(q)) + "/" + key == "/" + (Join(q) + "/" + key);
    }
  }

  /** An empty leading key leaves no trace in the string. */
  lemma {:induction false} PrintDropsLeadingEmpty(p: Path)
    requires p != [] && p[0] == ""
    ensures PrintPath(p) == PrintPath(p[1..])
    decreases |p|
  {
    if |p| == 1 {
      assert PrintPath(p[..0]) == "/";
    } else {
      var q := p[..|p| - 1];
      PrintDropsLeadingEmpty(q);
      assert p[1..][..|p[1..]| - 1] == q[1..];
    }
  }

  lemma {:induction false} ParseNoLonger(p: Path)
    requires AllSlashFree(p)
    ensures |ParsePath(PrintPath(p))| <= |p|
    decreases |p|
  {
    if p != [] {
      if p[0] == "" {
        PrintDropsLeadingEmpty(p);
        assert AllSlashFree(p[1..]);
        ParseNoLonger(p[1..]);
      } else {
        PrintIsJoin(p);
        SplitJoin(p);
      }
    }
  }

  /** A path survives printing and parsing exactly when no key holds a '/' and the
      first key is not empty. */
  lemma PathRoundTrip(p: Path)
    ensures ParsePath(PrintPath(p)) == p <==> SafePath(p)
  {
    if SafePath(p) {
      if p != [] {
        PrintIsJoin(p);
        SplitJoin(p);
      }
    } else if AllSlashFree(p) {
      PrintDropsLeadingEmpty(p);
      assert AllSlashFree(p[1..]);
      ParseNoLonger(p[1..]);
    } else {
      var path := PrintPath(p);
      SplitIsSlashFree(if path == "" then "" else path[1..]);
    }
  }
}
