/** drivers/115_Open/full_list.go: the path of a directory below the mounted root. */
module DirPath115 {
  import opened Parts
  import opened Text

  datatype PathEntry = PathEntry(id: string, name: string)

  function Replace(s: string, from: char, to: char): (t: string)
    ensures |t| == |s| && forall k :: 0 <= k < |s| ==> t[k] == if s[k] == from then to else s[k]
  {
    if s == "" then "" else Replace(s[..|s| - 1], from, to) + [if s[|s| - 1] == from then to else s[|s| - 1]]
  }

  /** The trimmed name, character by character, with '_' for a slash of either kind. */
  ghost predicate NameAsSegment(name: string, seg: string) {
    var t := TrimSpace(name);
    |seg| == |t| && forall k :: 0 <= k < |t| ==> seg[k] == if t[k] == '/' || t[k] == '\\' then '_' else t[k]
  }

  /** pathSegmentName */
  function SegmentName(name: string): (seg: string)
    ensures NameAsSegment(name, seg)
    ensures seg == "" <==> TrimSpace(name) == ""
    ensures Lacks(seg, '/') && Lacks(seg, '\\')
  {
    Replace(Replace(TrimSpace(name), '/', '_'), '\\', '_')
  }

  function ID(p: PathEntry): string {
    TrimSpace(p.id)
  }

  /** What one entry below the root adds: its name, unless it is the cloud's own root or has none. */
  function Segment(p: PathEntry): seq<string> {
    var name := SegmentName(p.name);
    if ID(p) == "0" || name == "" then [] else [name]
  }

  /** The segments of entries `from` up to `end`. */
  function Segments(paths: seq<PathEntry>, from: nat, end: nat): (segs: seq<string>)
    requires end <= |paths|
    decreases end
  {
    if end <= from then [] else Segments(paths, from, end - 1) + Segment(paths[end - 1])
  }

  /** One past the last of the first `n` entries that is the root, or 0. */
  function AfterRoot(paths: seq<PathEntry>, rootID: string, n: nat): (k: nat)
    requires n <= |paths|
    ensures k <= n
    decreases n
  {
    if n == 0 || ID(paths[n - 1]) == rootID then n else AfterRoot(paths, rootID, n - 1)
  }

  /** That really is the last one. */
  lemma {:induction false} AfterRootIsLast(paths: seq<PathEntry>, rootID: string, n: nat)
    requires n <= |paths|
    ensures var k := AfterRoot(paths, rootID, n);
      (k > 0 ==> ID(paths[k - 1]) == rootID) && forall j :: k <= j < n ==> ID(paths[j]) != rootID
  {
    hide ID;
    if n > 0 && ID(paths[n - 1]) != rootID {
      AfterRootIsLast(paths, rootID, n - 1);
    }
  }

  /** The last mention of the root is just before `start`; without one `start` is 0. */
  ghost predicate StartsAfterRoot(paths: seq<PathEntry>, rootID: string, start: nat) {
    && start <= |paths|
    && (start > 0 ==> TrimSpace(paths[start - 1].id) == rootID)
    && forall j :: start <= j < |paths| ==> TrimSpace(paths[j].id) != rootID
  }

  /** Entry k gives a segment: it is not the cloud's own root and its name is not blank. */
  ghost predicate GivesName(paths: seq<PathEntry>, k: nat)
    requires k < |paths|
  {
    TrimSpace(paths[k].id) != "0" && TrimSpace(paths[k].name) != ""
  }

  /** Exactly the entries from `from` to before `end` that give a segment, in order. */
  ghost predicate NamedPositions(paths: seq<PathEntry>, from: nat, end: nat, at: seq<nat>) {
    && end <= |paths|
    && (forall j :: 0 <= j < |at| ==> from <= at[j] < end && GivesName(paths, at[j]))
    && (forall i, j :: 0 <= i < j < |at| ==> at[i] < at[j])
    && (forall k: nat :: from <= k < end && GivesName(paths, k) ==> k in at)
  }

  /** Segment j is the name of the entry at position at[j], and the own name follows unless it is blank. */
  ghost predicate NamesInOrder(paths: seq<PathEntry>, at: seq<nat>, selfName: string, segs: seq<string>)
    requires forall j :: 0 <= j < |at| ==> at[j] < |paths|
  {
    && |segs| == |at| + (if TrimSpace(selfName) == "" then 0 else 1)
    && (forall j :: 0 <= j < |at| ==> NameAsSegment(paths[at[j]].name, segs[j]))
    && (TrimSpace(selfName) != "" ==> NameAsSegment(selfName, segs[|at|]))
  }

  /** The names at those positions. */
  ghost predicate NamesAt(paths: seq<PathEntry>, at: seq<nat>, segs: seq<string>) {
    |at| == |segs| && forall j :: 0 <= j < |at| ==> at[j] < |paths| && NameAsSegment(paths[at[j]].name, segs[j])
  }

  lemma PositionsMore(paths: seq<PathEntry>, from: nat, last: nat, front: seq<nat>, segs: seq<string>) returns (at: seq<nat>)
    requires from <= last < |paths| && NamedPositions(paths, from, last, front) && NamesAt(paths, front, segs)
    ensures NamedPositions(paths, from, last + 1, at) && NamesAt(paths, at, segs + Segment(paths[last]))
  {
    hide GivesName, NameAsSegment, Segment;
    SegmentOf(paths, last);
    at := front;
    if GivesName(paths, last) {
      at := front + [last];
      assert at[|front|] == last;
    } else {
      assert segs + Segment(paths[last]) == segs;
    }
    forall k: nat | from <= k < last && GivesName(paths, k)
      ensures k in at
    {
      assert k in front;
    }
  }

  lemma SegmentOf(paths: seq<PathEntry>, k: nat)
    requires k < |paths|
    ensures |Segment(paths[k])| == if GivesName(paths, k) then 1 else 0
    ensures GivesName(paths, k) ==> NameAsSegment(paths[k].name, Segment(paths[k])[0])
  {
    hide TrimSpace, NameAsSegment, Lacks;
  }

  /** The segments are the names at the positions that give one. */
  lemma {:induction false} SegmentsAt(paths: seq<PathEntry>, from: nat, end: nat) returns (at: seq<nat>)
    requires end <= |paths|
    ensures NamedPositions(paths, from, end, at) && NamesAt(paths, at, Segments(paths, from, end))
    decreases end
  {
    hide GivesName, Segment, NamedPositions, NamesAt;
    if end <= from {
      NoPositions(paths, from, end);
      at := [];
    } else {
      var front := SegmentsAt(paths, from, end - 1);
      at := PositionsMore(paths, from, end - 1, front, Segments(paths, from, end - 1));
    }
  }

  lemma NoPositions(paths: seq<PathEntry>, from: nat, end: nat)
    requires end <= from && end <= |paths|
    ensures NamedPositions(paths, from, end, []) && NamesAt(paths, [], [])
  {
  }

  lemma OwnNameLast(paths: seq<PathEntry>, names: seq<string>, at: seq<nat>, selfName: string)
    requires NamesAt(paths, at, names)
    ensures NamesInOrder(paths, at, selfName, names + SelfSegment(selfName))
  {
    hide NameAsSegment, TrimSpace, Lacks;
  }

  /** No segment is empty or contains a slash. */
  ghost predicate Plain(segs: seq<string>) {
    forall k :: 0 <= k < |segs| ==> segs[k] != "" && Lacks(segs[k], '/')
  }

  lemma PlainConcat(a: seq<string>, b: seq<string>)
    requires Plain(a) && Plain(b)
    ensures Plain(a + b)
  {
    hide Lacks;
  }

  lemma PlainSegment(name: string)
    ensures Plain(if SegmentName(name) == "" then [] else [SegmentName(name)])
  {
    hide Lacks;
    assert Lacks(SegmentName(name), '/');
  }

  lemma {:induction false} SegmentsPlain(paths: seq<PathEntry>, from: nat, end: nat)
    requires end <= |paths|
    ensures Plain(Segments(paths, from, end))
    decreases end
  {
    hide Segment, Plain;
    PlainNone();
    if end > from {
      SegmentsPlain(paths, from, end - 1);
      PlainEntry(paths[end - 1]);
      PlainConcat(Segments(paths, from, end - 1), Segment(paths[end - 1]));
    }
  }

  lemma PlainEntry(p: PathEntry)
    ensures Plain(Segment(p))
  {
    hide ID, SegmentName, Plain;
    PlainSegment(p.name);
    PlainNone();
  }

  lemma PlainNone()
    ensures Plain([])
  {
  }

  function SelfSegment(selfName: string): seq<string> {
    if SegmentName(selfName) == "" then [] else [SegmentName(selfName)]
  }

  /** The loop of buildDirPath: each mention of the root starts over. */
  method Collect(paths: seq<PathEntry>, rootID: string) returns (names: seq<string>, foundRoot: bool)
    ensures foundRoot <==> rootID == "0" || exists k :: 0 <= k < |paths| && ID(paths[k]) == rootID
    ensures names == if foundRoot then Segments(paths, AfterRoot(paths, rootID, |paths|), |paths|) else []
  {
    hide ID, SegmentName, Segment;
    names := [];
    foundRoot := rootID == "0";
    for n := 0 to |paths|
      invariant foundRoot <==> rootID == "0" || exists k :: 0 <= k < n && ID(paths[k]) == rootID
      invariant names == if foundRoot then Segments(paths, AfterRoot(paths, rootID, n), n) else []
    {
      var id := GetID(paths[n]);
      if id == rootID {
        foundRoot := true;
        names := [];
        continue;
      }
      if !foundRoot {
        continue;
      }
      var more := NameOf(paths[n], id);
      names := names + more;
    }
  }

  /** The name an entry adds. */
  method NameOf(p: PathEntry, id: string) returns (names: seq<string>)
    requires id == ID(p)
    ensures names == Segment(p)
  {
    hide ID, SegmentName;
    if id == "0" {
      return [];
    }
    var name := SegmentName(p.name);
    names := if name != "" then [name] else [];
  }

  /** buildDirPath: what follows the last mention of the root, or nothing when the root is not mentioned. */
  method BuildDirPath(paths: seq<PathEntry>, selfName: string, rootID: string)
    returns (path: string, ok: bool, ghost start: nat, ghost at: seq<nat>, ghost segs: seq<string>)
    ensures ok <==> rootID == "0" || exists k :: 0 <= k < |paths| && TrimSpace(paths[k].id) == rootID
    ensures ok ==> StartsAfterRoot(paths, rootID, start) && NamedPositions(paths, start, |paths|, at)
    ensures ok ==> NamesInOrder(paths, at, selfName, segs) && path == Join(segs, "/")
    ensures ok && segs != [] ==> Split(path, '/') == segs
    ensures !ok ==> path == ""
  {
    hide SegmentName, Split, Join, Lacks, Plain, TrimSpace, Segments, NameAsSegment, NamesInOrder, NamedPositions;
    var names, foundRoot := Collect(paths, rootID);
    if !foundRoot {
      return "", false, 0, [], [];
    }
    start := AfterRoot(paths, rootID, |paths|);
    AfterRootIsLast(paths, rootID, |paths|);
    at := SegmentsAt(paths, start, |paths|);
    PositionsInside(paths, start, |paths|, at);
    OwnNameLast(paths, names, at, selfName);
    var name := SegmentName(selfName);
    if name != "" {
      names := names + [name];
    }
    segs := names;
    assert names == Segments(paths, start, |paths|) + SelfSegment(selfName);
    path, ok := Join(names, "/"), true;
    SegmentsPlain(paths, start, |paths|);
    PlainSegment(selfName);
    PlainConcat(Segments(paths, start, |paths|), SelfSegment(selfName));
    SplitsBack(names);
  }

  lemma PositionsInside(paths: seq<PathEntry>, from: nat, end: nat, at: seq<nat>)
    requires NamedPositions(paths, from, end, at)
    ensures forall j :: 0 <= j < |at| ==> at[j] < |paths|
  {
  }

  lemma SplitsBack(segs: seq<string>)
    requires Plain(segs)
    ensures segs != [] ==> Split(Join(segs, "/"), '/') == segs
  {
    hide Split, Join, Lacks;
    if segs != [] {
      SplitJoin(segs, '/');
      assert ['/'] == "/";
    }
  }

  method GetID(p: PathEntry) returns (id: string)
    ensures id == ID(p)
  {
    id := TrimSpace(p.id);
  }
}
