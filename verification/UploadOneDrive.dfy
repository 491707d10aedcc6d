/**
 drivers/OneDrive/upload.go: one upload session that takes byte ranges in order and says which byte it
 expects next.
 */
module UploadOneDrive {
  import opened Parts
  import opened Text
  import Transfer

  const ATTEMPTS := 3

  datatype Result<T> = Success(value: T) | Failure

  /** Cut at the first '-': the text before it, or everything. */
  function BeforeDash(s: string): string {
    match Index(s, '-')
    case None => s
    case Some(i) => s[..i]
  }

  /** oneDriveNextOffset */
  function NextOffset(ranges: seq<string>, size: nat): (r: Result<nat>)
    ensures r.Success? ==> r.value <= size
  {
    if ranges == [] then Failure else
      match ParseInt(TrimSpace(BeforeDash(TrimSpace(ranges[0]))))
      case None => Failure
      case Some(offset) => if offset < 0 || offset > size then Failure else Success(offset)
  }

  lemma DecimalIsPlain(n: nat)
    ensures var d := Decimal(n); d != "" && Trimmed(d) && Lacks(d, '-')
  {
    var d := Decimal(n);
    assert forall k :: 0 <= k < |d| ==> IsDigit(d[k]);
  }

  /** From the range a server prints, "next-" or "next-last", the driver reads back the next byte exactly when
      that byte is within the file. */
  lemma NextOffsetReadsServer(next: nat, last: string, more: seq<string>, size: nat)
    requires size < 0x8000_0000_0000_0000
    requires forall k :: 0 <= k < |last| ==> IsDigit(last[k])
    ensures NextOffset([Decimal(next) + "-" + last] + more, size) == if next <= size then Success(next) else Failure
  {
    hide Decimal, ParseInt, TrimSpace, BeforeDash, Trimmed, Lacks;
    var text := Decimal(next) + "-" + last;
    DecimalIsPlain(next);
    BeforeDashIs(Decimal(next), last);
    TrimIsIdentityIff(text);
    TrimIsIdentityIff(Decimal(next));
    ParsePrinted(next);
    assert ([text] + more)[0] == text;
  }

  lemma BeforeDashIs(d: string, last: string)
    requires d != "" && Trimmed(d) && Lacks(d, '-')
    requires forall k :: 0 <= k < |last| ==> IsDigit(last[k])
    ensures BeforeDash(d + "-" + last) == d && Trimmed(d + "-" + last)
  {
    IndexAfter(d, '-', last);
    var text := d + "-" + last;
    assert text == d + ['-'] + last && text[..|d|] == d && text[0] == d[0];
    assert text[|text| - 1] == if last == "" then '-' else last[|last| - 1];
  }

  lemma NextOffsetReads(next: nat, size: nat)
    requires next <= size < 0x8000_0000_0000_0000
    ensures NextOffset([Decimal(next) + "-"], size) == Success(next)
  {
    hide Decimal, NextOffset;
    NextOffsetReadsServer(next, "", [], size);
    assert Decimal(next) + "-" + "" == Decimal(next) + "-";
    assert [Decimal(next) + "-"] + [] == [Decimal(next) + "-"];
  }

  /** One range the driver announced. */
  datatype Range = Range(start: nat, end: nat, total: nat)

  function ContentRange(r: Range): string {
    "bytes " + Decimal(r.start) + "-" + Decimal(r.end) + "/" + Decimal(r.total)
  }

  /** Section 14.4 of RFC 9110: first and last byte of a range that lies within the complete length. */
  predicate WellFormed(r: Range) {
    r.start <= r.end < r.total
  }

  /** The announced numbers can be read back from the header. */
  lemma ContentRangeReadsBack(r: Range, rest: string)
    requires rest == Decimal(r.end) + "/" + Decimal(r.total)
    ensures ContentRange(r) == "bytes " + Decimal(r.start) + "-" + rest
    ensures Split(ContentRange(r)[6..], '-') == [Decimal(r.start), rest]
    ensures Split(rest, '/') == [Decimal(r.end), Decimal(r.total)]
    ensures [DigitsValue(Decimal(r.start)), DigitsValue(Decimal(r.end)), DigitsValue(Decimal(r.total))]
         == [r.start, r.end, r.total]
  {
    hide Decimal, Split, Lacks, DigitsValue, IsDigit;
    var a, b, c := Decimal(r.start), Decimal(r.end), Decimal(r.total);
    NoSeparators(r);
    HeaderPieces(a, b, c, rest);
    SplitFirst(a, '-', rest);
    SplitOne(rest, '-');
    SplitFirst(b, '/', c);
    SplitOne(c, '/');
    DecimalValue(r.start);
    DecimalValue(r.end);
    DecimalValue(r.total);
  }

  lemma HeaderPieces(a: string, b: string, c: string, rest: string)
    requires rest == b + "/" + c
    ensures rest == b + ['/'] + c
    ensures "bytes " + a + "-" + b + "/" + c == "bytes " + a + "-" + rest
    ensures ("bytes " + a + "-" + b + "/" + c)[6..] == a + ['-'] + rest
  {
    var start: string := "bytes ";
    assert |start| == 6;
    assert start + a + "-" + b + "/" + c == start + a + "-" + rest == start + (a + ['-'] + rest);
  }

  lemma NoSeparators(r: Range)
    ensures Lacks(Decimal(r.start), '-') && Lacks(Decimal(r.end), '/') && Lacks(Decimal(r.total), '/')
    ensures Lacks(Decimal(r.end) + "/" + Decimal(r.total), '-')
  {
    hide Decimal;
    var a, b, c := Decimal(r.start), Decimal(r.end), Decimal(r.total);
    assert forall k :: 0 <= k < |a| ==> IsDigit(a[k]);
    assert forall k :: 0 <= k < |b| ==> IsDigit(b[k]);
    assert forall k :: 0 <= k < |c| ==> IsDigit(c[k]);
  }

  /** Each range starts where the one before it ended; together they run from `from` up to `to`. */
  ghost predicate Contiguous(log: seq<Range>, from: nat, to: nat, total: nat) {
    && (log == [] ==> from == to)
    && (log != [] ==> log[0].start == from && log[|log| - 1].end + 1 == to)
    && (forall k :: 0 <= k < |log| ==> WellFormed(log[k]) && log[k].total == total)
    && (forall k :: 0 < k < |log| ==> log[k].start == log[k - 1].end + 1)
  }

  lemma NoRange(from: nat, total: nat)
    ensures Contiguous([], from, from, total)
  {
  }

  lemma ContiguousMore(log: seq<Range>, from: nat, to: nat, r: Range)
    requires Contiguous(log, from, to, r.total) && r.start == to && WellFormed(r)
    ensures Contiguous(log + [r], from, r.end + 1, r.total)
  {
    var log' := log + [r];
    assert forall k :: 0 <= k < |log| ==> log'[k] == log[k];
  }

  datatype Why = Network | Busy | Cancelled | Bad

  /** What happens to one range: taken and answered, kept only in part with no good answer, or refused. An
      answer to the last range may carry the item's id. */
  datatype Fate = Take(id: string) | Keep(bytes: nat, why: Why) | Refuse(why: Why)

  datatype Reply = Accepted | Item(id: string) | Failed(why: Why)

  function Next(script: seq<Fate>): Fate {
    if script == [] then Refuse(Cancelled) else script[0]
  }

  function Rest(script: seq<Fate>): seq<Fate> {
    if script == [] then [] else script[1..]
  }

  /** A script that takes every request, with an id for the item, and lasts for at least `k` of them. */
  ghost predicate Granted(script: seq<Fate>, k: nat) {
    |script| >= k && forall i :: 0 <= i < |script| ==> script[i].Take? && script[i].id != ""
  }

  lemma GrantedNext(script: seq<Fate>, k: nat)
    ensures Granted(script, k + 1) ==> Next(script).Take? && Next(script).id != "" && Granted(Rest(script), k)
  {
  }

  /** How many ranges `left` bytes take. */
  function Ranges(left: nat, chunkSize: nat): (n: nat)
    requires chunkSize > 0
    ensures n == 0 <==> left == 0
    ensures n <= left
  {
    if left == 0 then 0 else 1 + Ranges(left - Transfer.AtMost(chunkSize, left), chunkSize)
  }

  /** The server takes a range only where it expects the next byte. */
  function Serve(held: seq<byte>, fate: Fate, start: nat, data: seq<byte>, total: nat): (seq<byte>, Reply) {
    match fate
    case Refuse(why) => (held, Failed(why))
    case Keep(bytes, why) =>
      (if start == |held| then held + data[..Transfer.AtMost(bytes, |data|)] else held, Failed(why))
    case Take(id) =>
      if start != |held| then (held, Failed(Bad))
      else (held + data, if |held + data| == total then Item(id) else Accepted)
  }

  class Server {
    var held: seq<byte>
    var script: seq<Fate>

    constructor (script: seq<Fate>)
      ensures held == [] && this.script == script
    {
      held, this.script := [], script;
    }

    method Put(start: nat, data: seq<byte>, total: nat) returns (r: Reply)
      modifies this
      ensures (held, r) == Serve(old(held), Next(old(script)), start, data, total)
      ensures script == Rest(old(script))
    {
      var served := Serve(held, Next(script), start, data, total);
      held, r, script := served.0, served.1, Rest(script);
    }

    /** A new session holds nothing. */
    method Open() returns (ok: bool)
      modifies this
      ensures held == if ok then [] else old(held)
      ensures ok == Next(old(script)).Take? && script == Rest(old(script))
    {
      ok := Next(script).Take?;
      script := Rest(script);
      if ok {
        held := [];
      }
    }

    /** The session's state: the next byte it expects. */
    method Status() returns (ok: bool, ranges: seq<string>)
      modifies this`script
      ensures ok ==> ranges == [Decimal(|held|) + "-"]
      ensures ok == Next(old(script)).Take? && script == Rest(old(script))
    {
      ok := Next(script).Take?;
      script := Rest(script);
      ranges := [Decimal(|held|) + "-"];
    }
  }

  datatype Resume = Resume(uploadedBytes: nat, fileID: string)

  /** One of the first `tries` requests is taken, and those before it were refused for a reason worth a retry. */
  predicate TakenWithin(script: seq<Fate>, tries: nat) {
    && tries > 0
    && (Next(script).Take?
        || (Next(script).Refuse? && (Next(script).why == Network || Next(script).why == Busy) && TakenWithin(Rest(script), tries - 1)))
  }

  class Session {
    const file: Transfer.LocalFile
    const server: Server
    const chunkSize: nat
    var saved: Option<Resume>
    var log: seq<Range>

    /** The server holds a prefix of the file, and a saved item id means it holds all of it. */
    ghost predicate Valid()
      reads this, file, server
    {
      && chunkSize > 0 && |file.content| < 0x8000_0000_0000_0000
      && server.held <= file.content
      && (saved.Some? && saved.value.fileID != "" ==> server.held == file.content)
    }

    constructor (file: Transfer.LocalFile, server: Server, chunkSize: nat)
      requires chunkSize > 0 && |file.content| < 0x8000_0000_0000_0000 && server.held == []
      ensures Valid() && this.file == file && this.server == server
    {
      this.file, this.server, this.chunkSize, saved, log := file, server, chunkSize, None, [];
    }

    /** A state no run of uploadLarge can finish from: the server holds the whole file and the reply that named
        the item was lost, so there is nothing left to send and no id to return. An empty file has no range
        to send at all. */
    ghost predicate DeadEnd()
      reads this, file, server
    {
      (saved.Some? && saved.value.fileID == "" && |server.held| == |file.content|) || (saved.None? && file.content == [])
    }

    /** putUploadChunk: three tries of the same range. */
    method PutChunk(data: seq<byte>, start: nat, end: nat, total: nat, ghost more: nat) returns (r: Reply)
      requires Valid() && saved.Some? && saved.value.fileID == ""
      requires start == |server.held| <= end < total == |file.content| && data == file.content[start..end + 1]
      modifies server
      ensures Valid() && old(server.held) <= server.held
      ensures !r.Failed? ==> server.held == file.content[..end + 1]
      ensures r.Item? ==> end + 1 == total
      ensures |old(server.script)| - |server.script| <= 3
      ensures TakenWithin(old(server.script), 3) ==> !r.Failed?
      ensures Next(old(server.script)).Refuse? && (Next(old(server.script)).why == Cancelled || Next(old(server.script)).why == Bad)
        ==> r.Failed? && server.script == Rest(old(server.script))
      ensures Granted(old(server.script), 1 + more)
        ==> !r.Failed? && (end + 1 == total ==> r.Item? && r.id != "") && Granted(server.script, more)
    {
      hide Granted;
      GrantedNext(server.script, more);
      r := Failed(Bad);
      for attempt := 0 to ATTEMPTS
        invariant Valid() && old(server.held) <= server.held
        invariant r.Failed?
        invariant |old(server.script)| - |server.script| <= attempt
        invariant attempt == 0 ==> server.script == old(server.script)
        invariant attempt > 0 ==> !(Next(old(server.script)).Refuse? && (Next(old(server.script)).why == Cancelled || Next(old(server.script)).why == Bad))
        invariant TakenWithin(old(server.script), 3) ==> TakenWithin(server.script, 3 - attempt) && start == |server.held|
        invariant Granted(old(server.script), 1 + more)
          ==> attempt == 0 && server.script == old(server.script) && server.held == old(server.held)
      {
        ghost var before := server.held;
        ghost var fate := Next(server.script);
        r := server.Put(start, data, total);
        HeldStaysPrefix(file.content, before, fate, start, end);
        if !r.Failed? || r.why == Cancelled || r.why == Bad {
          return;
        }
      }
    }

    /** The loop body of uploadLarge: reads one range where the cursor stands, sends it and saves. */
    method SendRange(uploaded: nat, ghost from: nat, ghost more: nat) returns (ok: bool, next: nat, id: string)
      requires Valid() && saved == Some(Resume(uploaded, "")) && uploaded == |server.held| < |file.content|
      requires file.pos == uploaded && Contiguous(log, from, uploaded, |file.content|)
      modifies this`saved, this`log, file, server
      ensures Valid() && saved.Some? && old(server.held) <= server.held
      ensures ok ==> next == uploaded + Transfer.AtMost(chunkSize, |file.content| - uploaded) == |server.held| == file.pos
      ensures ok ==> saved == Some(Resume(next, id)) && (id != "" ==> next == |file.content|)
      ensures Contiguous(log, from, if ok then next else uploaded, |file.content|)
      ensures Granted(old(server.script), 1 + more)
        ==> ok && Granted(server.script, more) && (next == |file.content| ==> id != "")
    {
      hide Granted, Contiguous;
      ok, next, id := false, uploaded, "";
      var size := |file.content|;
      var want := Transfer.AtMost(chunkSize, size - uploaded);
      var data := file.ReadFull(want);
      if data.None? { return; }
      var end := uploaded + want - 1;
      var r := PutChunk(data.value, uploaded, end, size, more);
      if r.Failed? { return; }
      ContiguousMore(log, from, uploaded, Range(uploaded, end, size));
      log := log + [Range(uploaded, end, size)];
      ok, next := true, uploaded + want;
      if r.Item? {
        id := r.id;
      }
      saved := Some(Resume(next, id));
    }

    /** The range loop of uploadLarge, from the byte the server expects. */
    method SendRanges(from: nat) returns (id: Option<string>)
      requires Valid() && saved == Some(Resume(from, "")) && from == |server.held|
      requires file.pos == from
      modifies this`saved, this`log, file, server
      ensures Valid() && saved.Some? && old(server.held) <= server.held
      ensures id.Some? ==> Contiguous(log, from, |file.content|, |file.content|) && server.held == file.content
      ensures exists to :: Contiguous(log, from, to, |file.content|)
      ensures from == |file.content| ==> id == Some("") && saved == old(saved) && server.held == old(server.held)
      ensures Granted(old(server.script), Ranges(|file.content| - from, chunkSize)) && from < |file.content|
        ==> id.Some? && id.value != ""
    {
      hide Granted, Contiguous;
      var size := |file.content|;
      var uploaded := from;
      id := None;
      var completed := "";
      log := [];
      NoRange(from, size);
      ghost var all := Ranges(size - from, chunkSize);
      while uploaded < size
        invariant Valid() && old(server.held) <= server.held
        invariant saved == Some(Resume(uploaded, completed)) && uploaded == |server.held| == file.pos <= size
        invariant completed != "" ==> uploaded == size
        invariant Contiguous(log, from, uploaded, size)
        invariant from <= uploaded && (from == size ==> saved == old(saved) && server.held == old(server.held))
        invariant Granted(old(server.script), all) ==> Granted(server.script, Ranges(size - uploaded, chunkSize))
        invariant Granted(old(server.script), all) && from < uploaded == size ==> completed != ""
        decreases size - uploaded
      {
        ghost var want := Transfer.AtMost(chunkSize, size - uploaded);
        var ok;
        ok, uploaded, completed := SendRange(uploaded, from, Ranges(size - uploaded - want, chunkSize));
        if !ok { return; }
      }
      id := Some(completed);
    }

    /** uploadLarge. `None` is an error; a successful upload has an item id. */
    method UploadLarge() returns (id: Option<string>)
      requires Valid()
      modifies this`saved, this`log, file, server
      ensures Valid()
      ensures id.Some? ==> id.value != "" && server.held == file.content
      ensures old(saved).Some? ==> old(server.held) <= server.held
      ensures old(DeadEnd()) ==> id.None? && DeadEnd()
      ensures !old(DeadEnd())
        && Granted(old(server.script), 1 + Ranges(|file.content| - (if old(saved).None? then 0 else |old(server.held)|), chunkSize))
        ==> id.Some?
    {
      hide Decimal, NextOffset, Contiguous, Granted, Ranges;
      ghost var n := if saved.None? then |file.content| else |file.content| - |server.held|;
      GrantedNext(server.script, Ranges(n, chunkSize));
      if saved.Some? && saved.value.fileID != "" {
        return Some(saved.value.fileID);
      }
      if saved.None? {
        var ok := server.Open();
        if !ok { return None; }
        saved := Some(Resume(0, ""));
      } else {
        var ok, ranges := server.Status();
        if !ok { return None; }
        NextOffsetReads(|server.held|, |file.content|);
        var next := NextOffset(ranges, |file.content|);
        if next.Failure? { return None; }
        saved := Some(Resume(next.value, ""));
      }
      file.SeekStart(saved.value.uploadedBytes);
      id := SendRanges(saved.value.uploadedBytes);
      if id == Some("") {
        id := None;
      }
    }
  }

  /** Whatever the server does with a range of the file sent at its start, it still holds a prefix; and when
      it takes the range it holds the file up to the range's end. */
  lemma HeldStaysPrefix(content: seq<byte>, held: seq<byte>, fate: Fate, start: nat, end: nat)
    requires held <= content && start <= end < |content|
    ensures var (held', r) := Serve(held, fate, start, content[start..end + 1], |content|);
      && held <= held' <= content
      && (!r.Failed? ==> held' == content[..end + 1])
      && (r.Item? ==> end + 1 == |content|)
  {
    if start == |held| {
      assert held + content[start..end + 1] == content[..end + 1];
    }
  }
}
