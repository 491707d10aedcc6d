/**
 drivers/Quark/auth.go: the cookie header as an ordered jar, read, printed, and updated by Set-Cookie.
 */
module QuarkCookie {
  import opened Parts
  import opened Text

  datatype Jar = Jar(keys: seq<string>, vals: map<string, string>)

  const Empty := Jar([], map[])

  /** Sets one name, appending it when it is new. */
  function Put(jar: Jar, k: string, v: string): Jar {
    Jar(if k in jar.vals then jar.keys else jar.keys + [k], jar.vals[k := v])
  }

  datatype Read = Nothing | Name(k: string, v: string)

  /** What one piece between semicolons says. */
  function ReadPair(raw: string): Read {
    var part := TrimSpace(raw);
    match Index(part, '=')
    case None => Nothing
    case Some(i) =>
      var k := TrimSpace(part[..i]);
      if k == "" then Nothing else Name(k, TrimSpace(part[i + 1..]))
  }

  function Add(jar: Jar, read: Read): Jar {
    match read
    case Nothing => jar
    case Name(k, v) => Put(jar, k, v)
  }

  function Fold(jar: Jar, parts: seq<string>): Jar
    decreases |parts|
  {
    if parts == [] then jar else Fold(Add(jar, ReadPair(parts[0])), parts[1..])
  }

  function Parse(s: string): Jar {
    Fold(Empty, Split(s, ';'))
  }

  /** parseCookie */
  method ParseCookie(s: string) returns (keys: seq<string>, vals: map<string, string>)
    ensures Jar(keys, vals) == Parse(s)
  {
    hide ReadPair, Split;
    keys, vals := [], map[];
    var parts := Split(s, ';');
    assert parts[0..] == parts;
    for n := 0 to |parts|
      invariant Fold(Jar(keys, vals), parts[n..]) == Parse(s)
    {
      assert parts[n..][0] == parts[n] && parts[n..][1..] == parts[n + 1..];
      var k, v := ParsePart(parts[n]);
      if k != "" {
        if k !in vals {
          keys := keys + [k];
        }
        vals := vals[k := v];
      }
    }
    assert parts[|parts|..] == [];
  }

  /** The loop body of parseCookie up to the name and value; no name when the piece is skipped. */
  method ParsePart(raw: string) returns (k: string, v: string)
    ensures ReadPair(raw) == if k == "" then Nothing else Name(k, v)
  {
    k, v := "", "";
    var part := TrimSpace(raw);
    if part == "" { return; }
    var i := Index(part, '=');
    if i.None? { return; }
    k := TrimSpace(part[..i.value]);
    if k == "" { return; }
    v := TrimSpace(part[i.value + 1..]);
  }

  ghost predicate Listed(jar: Jar) {
    && (forall k :: k in jar.vals <==> k in jar.keys)
    && (forall i, j :: 0 <= i < j < |jar.keys| ==> jar.keys[i] != jar.keys[j])
  }

  function Pair(k: string, v: string): string {
    k + "=" + v
  }

  function Pairs(jar: Jar): (ps: seq<string>)
    requires forall k :: k in jar.keys ==> k in jar.vals
    ensures |ps| == |jar.keys|
    ensures forall i :: 0 <= i < |ps| ==> jar.keys[i] in jar.keys && ps[i] == Pair(jar.keys[i], jar.vals[jar.keys[i]])
  {
    seq(|jar.keys|, i requires 0 <= i < |jar.keys| => assert jar.keys[i] in jar.keys; Pair(jar.keys[i], jar.vals[jar.keys[i]]))
  }

  /** buildCookie */
  function Build(jar: Jar): string
    requires forall k :: k in jar.keys ==> k in jar.vals
  {
    Join(Pairs(jar), "; ")
  }

  predicate GoodName(k: string) {
    k != "" && Trimmed(k) && Lacks(k, '=') && Lacks(k, ';')
  }

  predicate GoodValue(v: string) {
    Trimmed(v) && Lacks(v, ';')
  }

  /** What a cookie header can express. */
  ghost predicate WellFormed(jar: Jar) {
    && Listed(jar)
    && (forall k :: k in jar.vals ==> GoodName(k) && GoodValue(jar.vals[k]))
  }

  lemma LacksPart(s: string, t: string, c: char)
    requires Lacks(s, c) && forall x :: x in t ==> x in s
    ensures Lacks(t, c)
  {
    forall k | 0 <= k < |t|
      ensures t[k] != c
    {
      assert t[k] in t;
    }
  }

  lemma ReadPairIsGood(raw: string)
    requires Lacks(raw, ';')
    ensures ReadPair(raw).Name? ==> GoodName(ReadPair(raw).k) && GoodValue(ReadPair(raw).v)
  {
    hide TrimSpace, Trimmed, Lacks;
    var part := TrimSpace(raw);
    LacksPart(raw, part, ';');
    var i := Index(part, '=');
    if i.Some? {
      var name, value := part[..i.value], part[i.value + 1..];
      LacksPart(part, name, ';');
      LacksPart(part, value, ';');
      LacksPart(name, TrimSpace(name), '=');
      LacksPart(name, TrimSpace(name), ';');
      LacksPart(value, TrimSpace(value), ';');
    }
  }

  lemma PutKeepsWellFormed(jar: Jar, k: string, v: string)
    requires WellFormed(jar) && GoodName(k) && GoodValue(v)
    ensures WellFormed(Put(jar, k, v))
  {
    hide GoodName, GoodValue;
  }

  lemma {:induction false} FoldKeepsWellFormed(jar: Jar, parts: seq<string>)
    requires WellFormed(jar) && forall k :: 0 <= k < |parts| ==> Lacks(parts[k], ';')
    ensures WellFormed(Fold(jar, parts))
    decreases |parts|
  {
    hide ReadPair, WellFormed, GoodName, GoodValue, Lacks;
    if parts != [] {
      ReadPairIsGood(parts[0]);
      var read := ReadPair(parts[0]);
      if read.Name? {
        PutKeepsWellFormed(jar, read.k, read.v);
      }
      FoldKeepsWellFormed(Add(jar, read), parts[1..]);
    }
  }

  /** Reading gives a well-formed jar, whatever the text. */
  lemma ParseIsWellFormed(s: string)
    ensures WellFormed(Parse(s))
  {
    SplitLacks(s, ';');
    FoldKeepsWellFormed(Empty, Split(s, ';'));
  }

  /** A piece says that a name has a value: its first '=' stands at `eq`, with the name before it, which is
      not blank, and the value after it. */
  ghost predicate Says(raw: string, eq: nat, k: string, v: string) {
    var part := TrimSpace(raw);
    && eq < |part| && part[eq] == '=' && Lacks(part[..eq], '=')
    && k != "" && TrimSpace(part[..eq]) == k && TrimSpace(part[eq + 1..]) == v
  }

  ghost predicate Names(raw: string, k: string) {
    exists eq: nat, v: string :: Says(raw, eq, k, v)
  }

  lemma ReadPairSays(raw: string, eq: nat, k: string, v: string)
    ensures Says(raw, eq, k, v) ==> ReadPair(raw) == Name(k, v)
    ensures ReadPair(raw) == Name(k, v) ==> Names(raw, k)
  {
    hide TrimSpace;
    var part := TrimSpace(raw);
    var i := Index(part, '=');
    if ReadPair(raw) == Name(k, v) {
      assert Says(raw, i.value, k, v);
    }
  }

  lemma ReadPairNames(raw: string, k: string)
    ensures Names(raw, k) <==> ReadPair(raw).Name? && ReadPair(raw).k == k
  {
    hide ReadPair, Says;
    if Names(raw, k) {
      var eq: nat, v :| Says(raw, eq, k, v);
      ReadPairSays(raw, eq, k, v);
    }
    if ReadPair(raw).Name? && ReadPair(raw).k == k {
      ReadPairSays(raw, 0, k, ReadPair(raw).v);
    }
  }

  ghost predicate NamesOnly(raw: string, k: string) {
    Names(raw, k) && forall x :: Names(raw, x) ==> x == k
  }

  lemma ReadPairNamesOne(raw: string)
    ensures ReadPair(raw).Name? ==> NamesOnly(raw, ReadPair(raw).k)
    ensures ReadPair(raw).Nothing? ==> forall k :: !Names(raw, k)
  {
    hide ReadPair, Names;
    forall k
      ensures Names(raw, k) <==> ReadPair(raw).Name? && ReadPair(raw).k == k
    {
      ReadPairNames(raw, k);
    }
  }

  /** Piece i is the first to name `k`. */
  ghost predicate FirstNaming(parts: seq<string>, k: string, i: nat) {
    i < |parts| && Names(parts[i], k) && forall j :: 0 <= j < i ==> !Names(parts[j], k)
  }

  /** Piece i is the last to name `k`, and says that it is `v`. */
  ghost predicate LastSaid(parts: seq<string>, k: string, i: nat, eq: nat, v: string) {
    i < |parts| && Says(parts[i], eq, k, v) && forall j :: i < j < |parts| ==> !Names(parts[j], k)
  }

  /** Exactly the named names, in the order of the pieces that named them first. */
  ghost predicate KeysInOrder(parts: seq<string>, keys: seq<string>, at: seq<nat>) {
    && |at| == |keys|
    && (forall a :: 0 <= a < |at| ==> FirstNaming(parts, keys[a], at[a]))
    && (forall a, b :: 0 <= a < b < |at| ==> at[a] < at[b])
    && (forall i, k :: 0 <= i < |parts| && Names(parts[i], k) ==> k in keys)
  }

  ghost predicate ValuesAreLast(parts: seq<string>, vals: map<string, string>) {
    && (forall k :: k in vals ==> exists i :: 0 <= i < |parts| && Names(parts[i], k))
    && (forall k, i: nat, eq: nat, v :: LastSaid(parts, k, i, eq, v) ==> k in vals && vals[k] == v)
  }

  lemma {:induction false} FoldLast(jar: Jar, parts: seq<string>)
    requires parts != []
    ensures Fold(jar, parts) == Add(Fold(jar, parts[..|parts| - 1]), ReadPair(parts[|parts| - 1]))
    decreases |parts|
  {
    hide ReadPair, Add;
    if |parts| > 1 {
      var tail := parts[1..];
      FoldLast(Add(jar, ReadPair(parts[0])), tail);
      assert parts[..|parts| - 1][1..] == tail[..|tail| - 1];
    }
  }

  lemma KeysMore(parts: seq<string>, jar: Jar, at: seq<nat>) returns (more: seq<nat>)
    requires parts != [] && Listed(jar) && KeysInOrder(parts[..|parts| - 1], jar.keys, at)
    ensures KeysInOrder(parts, Add(jar, ReadPair(parts[|parts| - 1])).keys, more)
  {
    hide ReadPair, Names, KeysInOrder;
    var n := |parts| - 1;
    var read := ReadPair(parts[n]);
    ReadPairNamesOne(parts[n]);
    assert parts == parts[..n] + [parts[n]];
    if read.Name? && read.k !in jar.keys {
      more := KeysNew(parts[..n], parts[n], read.k, jar.keys, at);
    } else {
      KeysSame(parts[..n], parts[n], jar.keys, at);
      more := at;
    }
  }

  lemma KeysSame(front: seq<string>, last: string, keys: seq<string>, at: seq<nat>)
    requires KeysInOrder(front, keys, at) && forall k :: Names(last, k) ==> k in keys
    ensures KeysInOrder(front + [last], keys, at)
  {
    hide Names, FirstNaming;
    forall a | 0 <= a < |at|
      ensures FirstNaming(front + [last], keys[a], at[a])
    {
      FirstNamingMore(front, last, keys[a], at[a]);
    }
  }

  lemma KeysNew(front: seq<string>, last: string, k: string, keys: seq<string>, at: seq<nat>) returns (more: seq<nat>)
    requires KeysInOrder(front, keys, at) && k !in keys && NamesOnly(last, k)
    ensures KeysInOrder(front + [last], keys + [k], more)
  {
    hide Names, FirstNaming;
    var parts, n: nat := front + [last], |front|;
    more := at + [n];
    forall a | 0 <= a < |more|
      ensures FirstNaming(parts, (keys + [k])[a], more[a]) && more[a] < |parts|
    {
      if a < |at| {
        FirstNamingMore(front, last, keys[a], at[a]);
      } else {
        NewNaming(front, last, k, keys);
      }
    }
    forall a | 0 <= a < |at|
      ensures at[a] < |front|
    {
      FirstNamingMore(front, last, keys[a], at[a]);
    }
  }

  lemma FirstNamingMore(front: seq<string>, last: string, k: string, i: nat)
    requires FirstNaming(front, k, i)
    ensures FirstNaming(front + [last], k, i) && i < |front|
  {
    hide Names;
  }

  lemma NewNaming(front: seq<string>, last: string, k: string, keys: seq<string>)
    requires Names(last, k) && k !in keys
    requires forall i, x :: 0 <= i < |front| && Names(front[i], x) ==> x in keys
    ensures FirstNaming(front + [last], k, |front|)
  {
    hide Names;
  }

  lemma ValuesMore(parts: seq<string>, jar: Jar)
    requires parts != [] && ValuesAreLast(parts[..|parts| - 1], jar.vals)
    ensures ValuesAreLast(parts, Add(jar, ReadPair(parts[|parts| - 1])).vals)
  {
    hide ReadPair, Names, Says;
    var n := |parts| - 1;
    var read := ReadPair(parts[n]);
    var front, after := parts[..n], Add(jar, read).vals;
    ReadPairNamesOne(parts[n]);
    forall k | k in after
      ensures exists i :: 0 <= i < |parts| && Names(parts[i], k)
    {
      if !Names(parts[n], k) {
        var i :| 0 <= i < |front| && Names(front[i], k);
        assert parts[i] == front[i];
      }
    }
    forall k, i: nat, eq: nat, v | LastSaid(parts, k, i, eq, v)
      ensures k in after && after[k] == v
    {
      if i == n {
        ReadPairSays(parts[n], eq, k, v);
      } else {
        assert LastSaid(front, k, i, eq, v);
      }
    }
  }

  lemma {:induction false} FoldMeans(parts: seq<string>) returns (at: seq<nat>)
    ensures Listed(Fold(Empty, parts))
    ensures KeysInOrder(parts, Fold(Empty, parts).keys, at) && ValuesAreLast(parts, Fold(Empty, parts).vals)
  {
    hide ReadPair, KeysInOrder, ValuesAreLast, Says, Names;
    if parts == [] {
      at := [];
      NoPieces();
    } else {
      var n := |parts| - 1;
      var front := FoldMeans(parts[..n]);
      var jar := Fold(Empty, parts[..n]);
      FoldLast(Empty, parts);
      at := KeysMore(parts, jar, front);
      ValuesMore(parts, jar);
    }
  }

  lemma NoPieces()
    ensures KeysInOrder([], [], []) && ValuesAreLast([], map[])
  {
  }

  /** A name has the value of the last piece that names it and the place of the first. */
  lemma FirstPlaceLastValue(s: string) returns (at: seq<nat>)
    ensures KeysInOrder(Split(s, ';'), Parse(s).keys, at)
    ensures ValuesAreLast(Split(s, ';'), Parse(s).vals)
  {
    hide Fold, KeysInOrder, ValuesAreLast, Split;
    at := FoldMeans(Split(s, ';'));
  }

  lemma PairIsTrimmed(k: string, v: string)
    requires GoodName(k) && GoodValue(v)
    ensures Trimmed(Pair(k, v)) && Lacks(Pair(k, v), ';')
  {
    var pair := Pair(k, v);
    assert pair[0] == k[0] && pair[|pair| - 1] == if v == "" then '=' else v[|v| - 1];
  }

  lemma PairSplits(k: string, v: string)
    requires Lacks(k, '=')
    ensures Index(Pair(k, v), '=') == Some(|k|)
    ensures |Pair(k, v)| == |k| + 1 + |v| && Pair(k, v)[..|k|] == k && Pair(k, v)[|k| + 1..] == v
  {
    IndexAfter(k, '=', v);
    assert Pair(k, v) == k + ['='] + v;
  }

  /** A printed pair, with or without the space that follows a semicolon, is read back. */
  lemma ReadPrintedPair(lead: string, k: string, v: string)
    requires GoodName(k) && GoodValue(v) && (lead == "" || lead == " ")
    ensures ReadPair(lead + Pair(k, v)) == Name(k, v)
  {
    hide TrimSpace, Index, Trimmed, Lacks, Pair;
    var pair := Pair(k, v);
    PairIsTrimmed(k, v);
    PairSplits(k, v);
    TrimIsIdentityIff(pair);
    TrimLeadingSpace(pair);
    assert "" + pair == pair;
    TrimIsIdentityIff(k);
    TrimIsIdentityIff(v);
  }

  lemma LeadIsTrimmed(lead: string, raw: string)
    requires lead == "" || lead == " "
    ensures ReadPair(lead + raw) == ReadPair(raw)
  {
    hide TrimSpace, Index;
    TrimLeadingSpace(raw);
    assert "" + raw == raw;
  }

  /** Splitting the printed text at its semicolons folds the same as the pairs themselves. */
  lemma {:induction false} FoldPrinted(jar: Jar, lead: string, ps: seq<string>)
    requires |ps| >= 1 && (lead == "" || lead == " ")
    requires forall i :: 0 <= i < |ps| ==> Lacks(ps[i], ';')
    ensures Fold(jar, Split(lead + Join(ps, "; "), ';')) == Fold(jar, ps)
    decreases |ps|
  {
    hide ReadPair, Split, Lacks, Add;
    var first := lead + ps[0];
    LeadIsTrimmed(lead, ps[0]);
    LeadLacks(lead, ps[0]);
    var next := Add(jar, ReadPair(ps[0]));
    if |ps| == 1 {
      SplitOne(first, ';');
      assert [first][1..] == [] && ps[1..] == [];
    } else {
      var rest := " " + Join(ps[1..], "; ");
      assert lead + Join(ps, "; ") == first + [';'] + rest;
      SplitFirst(first, ';', rest);
      assert ([first] + Split(rest, ';'))[1..] == Split(rest, ';');
      FoldPrinted(next, " ", ps[1..]);
    }
  }

  lemma LeadLacks(lead: string, s: string)
    requires (lead == "" || lead == " ") && Lacks(s, ';')
    ensures Lacks(lead + s, ';')
  {
  }

  /** The jar of the first `i` names. */
  ghost function FirstNames(jar: Jar, i: nat): Jar
    requires Listed(jar) && i <= |jar.keys|
  {
    Jar(jar.keys[..i], map k | k in jar.keys[..i] :: jar.vals[k])
  }

  lemma FirstNamesNext(jar: Jar, i: nat)
    requires WellFormed(jar) && i < |jar.keys|
    ensures Add(FirstNames(jar, i), ReadPair(Pairs(jar)[i])) == FirstNames(jar, i + 1)
  {
    hide ReadPair, GoodName, GoodValue, Pair;
    var k := jar.keys[i];
    assert k in jar.keys;
    ReadPrintedPair("", k, jar.vals[k]);
    assert "" + Pairs(jar)[i] == Pairs(jar)[i];
    assert jar.keys[..i + 1] == jar.keys[..i] + [k];
    assert k !in jar.keys[..i];
  }

  lemma {:induction false} FoldPairs(jar: Jar, i: nat)
    requires WellFormed(jar) && i <= |jar.keys|
    ensures Fold(FirstNames(jar, i), Pairs(jar)[i..]) == jar
    decreases |jar.keys| - i
  {
    hide ReadPair, GoodName, GoodValue, Pair;
    if i == |jar.keys| {
      assert FirstNames(jar, i) == jar by {
        assert jar.keys[..i] == jar.keys;
        assert FirstNames(jar, i).vals == jar.vals;
      }
    } else {
      var ps := Pairs(jar);
      FirstNamesNext(jar, i);
      FoldPairs(jar, i + 1);
      assert ps[i..][0] == ps[i] && ps[i..][1..] == ps[i + 1..];
    }
  }

  lemma PairsLack(jar: Jar)
    requires WellFormed(jar)
    ensures forall i :: 0 <= i < |Pairs(jar)| ==> Lacks(Pairs(jar)[i], ';')
  {
    hide GoodName, GoodValue, Lacks;
    var ps := Pairs(jar);
    forall i | 0 <= i < |ps|
      ensures Lacks(ps[i], ';')
    {
      PairIsTrimmed(jar.keys[i], jar.vals[jar.keys[i]]);
    }
  }

  lemma EmptyReadsBack()
    ensures Parse("") == Empty
  {
    SplitOne("", ';');
    assert ReadPair("") == Nothing;
    assert [""][1..] == [];
  }

  lemma WellFormedReadsBack(jar: Jar)
    requires WellFormed(jar)
    ensures Parse(Build(jar)) == jar
  {
    hide ReadPair, GoodName, GoodValue, Pair, Lacks, Split, Fold;
    var ps := Pairs(jar);
    PairsLack(jar);
    FoldPairs(jar, 0);
    assert FirstNames(jar, 0) == Empty && ps[0..] == ps;
    if ps == [] {
      assert jar.keys == [];
      assert jar.vals == map[];
      EmptyReadsBack();
    } else {
      FoldPrinted(Empty, "", ps);
      assert "" + Build(jar) == Build(jar);
    }
  }

  /** Printing and reading back gives the same names, values and order exactly for well-formed jars. */
  lemma ParseBuildIff(jar: Jar)
    requires Listed(jar)
    ensures Parse(Build(jar)) == jar <==> WellFormed(jar)
  {
    hide Parse, Build, WellFormed;
    ParseIsWellFormed(Build(jar));
    if WellFormed(jar) {
      WellFormedReadsBack(jar);
    }
  }

  /** For every text: reading, printing and reading again changes nothing. */
  lemma ReadPrintRead(s: string)
    ensures Listed(Parse(s)) && Parse(Build(Parse(s))) == Parse(s)
  {
    ParseIsWellFormed(s);
    ParseBuildIff(Parse(s));
  }

  /** Exactly the incoming names changed: every other name keeps its value, names keep their order, and new
      names come after all others. */
  ghost predicate Absorbs(jar: Jar, incoming: map<string, string>, jar': Jar) {
    && Listed(jar')
    && jar'.vals == jar.vals + incoming
    && jar.keys <= jar'.keys
  }

  predicate Changes(jar: Jar, incoming: map<string, string>) {
    exists k :: k in incoming && (k !in jar.vals || jar.vals[k] != incoming[k])
  }

  /** The incoming names visited so far. */
  function Visited(incoming: map<string, string>, rest: set<string>): map<string, string> {
    map k | k in incoming && k !in rest :: incoming[k]
  }

  lemma VisitOne(incoming: map<string, string>, rest: set<string>, k: string)
    requires rest <= incoming.Keys && k in rest
    ensures Visited(incoming, rest - {k}) == Visited(incoming, rest)[k := incoming[k]]
    ensures k !in Visited(incoming, rest)
  {
  }

  lemma AbsorbNothing(first: Jar, incoming: map<string, string>)
    requires WellFormed(first)
    ensures Absorbs(first, Visited(incoming, incoming.Keys), first)
    ensures !Changes(first, Visited(incoming, incoming.Keys))
    ensures Visited(incoming, {}) == incoming
  {
    assert first.vals + Visited(incoming, incoming.Keys) == first.vals;
  }

  lemma AbsorbOne(first: Jar, seen: map<string, string>, jar: Jar, k: string, v: string)
    requires Absorbs(first, seen, jar) && k !in seen
    ensures Absorbs(first, seen[k := v], Put(jar, k, v))
    ensures Changes(first, seen[k := v]) <==> Changes(first, seen) || k !in first.vals || first.vals[k] != v
    ensures (k !in jar.vals <==> k !in first.vals) && (k in jar.vals ==> jar.vals[k] == first.vals[k])
    ensures k in jar.vals && jar.vals[k] == v ==> Put(jar, k, v) == jar
  {
    var seen' := seen[k := v];
    assert first.vals + seen' == (first.vals + seen)[k := v];
    if Changes(first, seen) {
      var x :| x in seen && (x !in first.vals || first.vals[x] != seen[x]);
      assert x in seen' && seen'[x] == seen[x];
    }
    assert k in seen' && seen'[k] == v;
    if k in jar.vals && jar.vals[k] == v {
      assert jar.vals[k := v] == jar.vals;
    }
  }

  /** Absorbing changes something exactly when the values afterwards are others than before. */
  lemma ChangesIff(jar: Jar, incoming: map<string, string>, jar': Jar)
    requires Absorbs(jar, incoming, jar')
    ensures Changes(jar, incoming) <==> jar'.vals != jar.vals
  {
    if Changes(jar, incoming) {
      var k :| k in incoming && (k !in jar.vals || jar.vals[k] != incoming[k]);
      assert k in jar'.vals && jar'.vals[k] == incoming[k];
    } else {
      assert jar.vals + incoming == jar.vals;
    }
  }

  /** After absorbing values a cookie can express, the printed header reads back as exactly that jar, and
      absorbing the same values again changes nothing. */
  lemma AbsorbedReadsBack(s: string, incoming: map<string, string>, jar': Jar)
    requires Absorbs(Parse(s), incoming, jar')
    requires forall k :: k in incoming ==> GoodName(k)
    ensures Listed(jar') && (Parse(Build(jar')) == jar' <==> forall k :: k in incoming ==> GoodValue(incoming[k]))
    ensures (forall k :: k in incoming ==> GoodValue(incoming[k])) ==> !Changes(Parse(Build(jar')), incoming)
  {
    hide Parse, Build, GoodName, GoodValue;
    ParseIsWellFormed(s);
    ParseBuildIff(jar');
    if forall k :: k in incoming ==> GoodValue(incoming[k]) {
      assert WellFormed(jar');
    }
    if WellFormed(jar') {
      forall k | k in incoming
        ensures GoodValue(incoming[k])
      {
        assert jar'.vals[k] == incoming[k];
      }
    }
  }

  lemma AbsorbsNone(jar: Jar)
    requires WellFormed(jar)
    ensures Absorbs(jar, map[], jar) && !Changes(jar, map[])
  {
    assert jar.vals + map[] == jar.vals;
  }

  lemma SessionNames(incoming: map<string, string>)
    requires forall k :: k in incoming ==> k == "__puus" || k == "__pus"
    ensures forall k :: k in incoming ==> GoodName(k)
  {
  }

  /** The last value each of the two session names was given, when it was given one. */
  function Incoming(parsed: seq<(string, string)>): (m: map<string, string>)
    ensures forall k :: k in m ==> (k == "__puus" || k == "__pus") && m[k] != ""
  {
    if parsed == [] then map[] else
      var (name, value) := parsed[|parsed| - 1];
      var before := Incoming(parsed[..|parsed| - 1]);
      if (name == "__puus" || name == "__pus") && value != "" then before[name := value] else before
  }

  /** A cookie that is taken over: one of the session names with a value. */
  predicate Taken(c: (string, string), name: string) {
    c.0 == name && (name == "__puus" || name == "__pus") && c.1 != ""
  }

  /** Cookie `i` is the last that is taken over under the name. */
  ghost predicate LastTaken(parsed: seq<(string, string)>, name: string, i: nat) {
    i < |parsed| && Taken(parsed[i], name) && forall j :: i < j < |parsed| ==> !Taken(parsed[j], name)
  }

  /** A name is incoming exactly when some cookie gives it a value, and then with the last such value. */
  lemma {:induction false} IncomingIsLast(parsed: seq<(string, string)>, name: string)
    ensures name in Incoming(parsed) <==> exists i: nat :: LastTaken(parsed, name, i)
    ensures forall i: nat :: LastTaken(parsed, name, i) ==> name in Incoming(parsed) && Incoming(parsed)[name] == parsed[i].1
  {
    if parsed != [] {
      var n := |parsed| - 1;
      var front := parsed[..n];
      IncomingIsLast(front, name);
      IncomingMore(parsed, name);
      hide Incoming, Taken;
      if Taken(parsed[n], name) {
        assert LastTaken(parsed, name, n);
      } else {
        forall i: nat
          ensures LastTaken(parsed, name, i) <==> LastTaken(front, name, i)
        {
        }
      }
    }
  }

  lemma IncomingMore(parsed: seq<(string, string)>, name: string)
    requires parsed != []
    ensures var front, last := parsed[..|parsed| - 1], parsed[|parsed| - 1];
      && (Taken(last, name) ==> name in Incoming(parsed) && Incoming(parsed)[name] == last.1)
      && (!Taken(last, name) ==> (name in Incoming(parsed) <==> name in Incoming(front)))
      && (!Taken(last, name) && name in Incoming(front) ==> Incoming(parsed)[name] == Incoming(front)[name])
  {
  }

  class Driver {
    var cookie: string
    var lastCookieChanged: bool

    constructor (cookie: string)
      ensures this.cookie == cookie && !lastCookieChanged
    {
      this.cookie, lastCookieChanged := cookie, false;
    }

    /** consumeCookieChanged */
    method ConsumeCookieChanged() returns (changed: bool)
      modifies this`lastCookieChanged
      ensures changed == old(lastCookieChanged) && !lastCookieChanged
    {
      changed := lastCookieChanged;
      lastCookieChanged := false;
    }

    /** The merge inside absorbSetCookie; the incoming names are visited in any order. */
    method Merge(incoming: map<string, string>) returns (jar: Jar, changed: bool)
      requires forall k :: k in incoming ==> incoming[k] != ""
      ensures Absorbs(Parse(cookie), incoming, jar)
      ensures changed <==> Changes(Parse(cookie), incoming)
      ensures !changed ==> jar == Parse(cookie)
    {
      hide Parse, Absorbs, Changes, WellFormed, Visited;
      var keys, vals := ParseCookie(cookie);
      ParseIsWellFormed(cookie);
      ghost var first := Jar(keys, vals);
      changed := false;
      var rest := incoming.Keys;
      AbsorbNothing(first, incoming);
      while rest != {}
        invariant rest <= incoming.Keys
        invariant Absorbs(first, Visited(incoming, rest), Jar(keys, vals))
        invariant changed <==> Changes(first, Visited(incoming, rest))
        invariant !changed ==> Jar(keys, vals) == first
        decreases rest
      {
        var name :| name in rest;
        var val := incoming[name];
        VisitOne(incoming, rest, name);
        AbsorbOne(first, Visited(incoming, rest), Jar(keys, vals), name, val);
        if name !in vals || vals[name] != val {
          if name !in vals {
            keys := keys + [name];
          }
          vals := vals[name := val];
          changed := true;
        }
        rest := rest - {name};
      }
      jar := Jar(keys, vals);
    }

    /** absorbSetCookie, for the cookies of one response in their order. */
    method AbsorbSetCookie(parsed: seq<(string, string)>) returns (ghost jar: Jar)
      modifies this
      ensures Absorbs(Parse(old(cookie)), Incoming(parsed), jar)
      ensures Changes(Parse(old(cookie)), Incoming(parsed)) ==> lastCookieChanged && cookie == Build(jar)
      ensures !Changes(Parse(old(cookie)), Incoming(parsed))
          ==> cookie == old(cookie) && lastCookieChanged == old(lastCookieChanged)
      ensures (forall k :: k in Incoming(parsed) ==> GoodValue(Incoming(parsed)[k])) ==> Parse(cookie) == jar
    {
      hide Parse, Build, GoodValue, GoodName, Absorbs, Changes, WellFormed;
      var got: map<string, string> := map[];
      for n := 0 to |parsed|
        invariant got == Incoming(parsed[..n])
      {
        assert parsed[..n + 1][..n] == parsed[..n];
        var (name, value) := parsed[n];
        if (name == "__puus" || name == "__pus") && value != "" {
          got := got[name := value];
        }
      }
      assert parsed[..|parsed|] == parsed;
      ParseIsWellFormed(cookie);
      jar := Parse(cookie);
      if got == map[] {
        AbsorbsNone(jar);
        return;
      }
      SessionNames(got);
      var merged, changed := Merge(got);
      jar := merged;
      if changed {
        AbsorbedReadsBack(cookie, got, merged);
        cookie := Build(merged);
        lastCookieChanged := true;
      }
    }
  }
}
