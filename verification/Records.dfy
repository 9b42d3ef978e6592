/** The records of `src/state/json_store.rs` as a file holds them: sorted by host, and
    read back into a map. JSON itself is a pair of functions. */
module Records {
  import opened Wrappers
  import opened Wire

  /** `rest` stands for the counters and times of a record, which the store never reads. */
  datatype DomainState = DomainState(host: string, rest: string)

  type Hosts = map<string, DomainState>

  datatype Codec = Codec(
    encode: seq<DomainState> -> seq<byte>,
    decode: seq<byte> -> Option<seq<DomainState>>)

  predicate IsSpace(b: byte) {
    b == 0x20 || b == 0x09 || b == 0x0a || b == 0x0c || b == 0x0d
  }

  predicate IsBlank(bytes: seq<byte>) {
    forall b <- bytes :: IsSpace(b)
  }

  /** What is asked of the JSON library: decoding undoes encoding, and no encoding is blank. */
  ghost predicate Faithful(codec: Codec) {
    forall records :: codec.decode(codec.encode(records)) == Some(records) && !IsBlank(codec.encode(records))
  }

  ghost predicate KeysAreHosts(m: Hosts) {
    forall h <- m :: m[h].host == h
  }

  // -- host order ------------------------------------------------------------------------

  predicate Before(a: string, b: string) {
    if b == "" then false
    else if a == "" then true
    else if a[0] != b[0] then a[0] < b[0]
    else Before(a[1..], b[1..])
  }

  lemma {:induction false} BeforeIsTotal(a: string, b: string)
    ensures Before(a, b) || Before(b, a) || a == b
    ensures !(Before(a, b) && Before(b, a)) && !Before(a, a)
  {
    if a != "" && b != "" && a[0] == b[0] {
      BeforeIsTotal(a[1..], b[1..]);
      assert a == [a[0]] + a[1..] && b == [b[0]] + b[1..];
    }
    if a != "" {
      BeforeIsTotal(a[1..], a[1..]);
    }
  }

  lemma {:induction false} BeforeIsTransitive(a: string, b: string, c: string)
    requires Before(a, b) && Before(b, c)
    ensures Before(a, c)
  {
    if a != "" && a[0] == b[0] == c[0] {
      BeforeIsTransitive(a[1..], b[1..], c[1..]);
    }
  }

  /** The order is that of the code points: at the first difference, or the shorter one first. */
  lemma {:induction false} BeforeIsLexicographic(a: string, b: string)
    ensures Before(a, b) <==>
              exists i :: && 0 <= i <= |a| && i < |b| && a[..i] == b[..i]
                          && (i == |a| || a[i] < b[i])
  {
    if a != "" && b != "" && a[0] == b[0] {
      BeforeIsLexicographic(a[1..], b[1..]);
      if i :| 0 <= i <= |a| - 1 && i < |b| - 1 && a[1..][..i] == b[1..][..i] && (i == |a| - 1 || a[1..][i] < b[1..][i]) {
        assert a[..i + 1] == [a[0]] + a[1..][..i] && b[..i + 1] == [b[0]] + b[1..][..i];
      }
      if i :| 0 <= i <= |a| && i < |b| && a[..i] == b[..i] && (i == |a| || a[i] < b[i]) {
        assert i > 0;
        assert a[1..][..i - 1] == a[..i][1..] && b[1..][..i - 1] == b[..i][1..];
      }
    } else if Before(a, b) {
      assert a[..0] == b[..0];
    }
  }

  ghost predicate Ascending(records: seq<DomainState>) {
    records == [] ||
    ((forall r <- records[1..] :: Before(records[0].host, r.host)) && Ascending(records[1..]))
  }

  function InsertByHost(r: DomainState, sorted: seq<DomainState>): seq<DomainState> {
    if sorted == [] || !Before(sorted[0].host, r.host) then [r] + sorted
    else [sorted[0]] + InsertByHost(r, sorted[1..])
  }

  function SortByHost(records: seq<DomainState>): seq<DomainState> {
    if records == [] then [] else InsertByHost(records[0], SortByHost(records[1..]))
  }

  ghost predicate DistinctHosts(records: seq<DomainState>) {
    records == [] ||
    ((forall r <- records[1..] :: r.host != records[0].host) && DistinctHosts(records[1..]))
  }

  lemma {:induction false} InsertMembers(r: DomainState, sorted: seq<DomainState>)
    ensures forall x :: x in InsertByHost(r, sorted) <==> x == r || x in sorted
  {
    if sorted != [] {
      InsertMembers(r, sorted[1..]);
      assert sorted == [sorted[0]] + sorted[1..];
    }
  }

  lemma {:induction false} InsertAscends(r: DomainState, sorted: seq<DomainState>)
    requires Ascending(sorted) && forall x <- sorted :: x.host != r.host
    ensures Ascending(InsertByHost(r, sorted))
  {
    if sorted != [] {
      var first := sorted[0];
      BeforeIsTotal(first.host, r.host);
      if Before(first.host, r.host) {
        InsertAscends(r, sorted[1..]);
        InsertMembers(r, sorted[1..]);
        assert InsertByHost(r, sorted)[1..] == InsertByHost(r, sorted[1..]);
      } else {
        forall x <- sorted
          ensures Before(r.host, x.host)
        {
          if x != first {
            assert x in sorted[1..];
            BeforeIsTransitive(r.host, first.host, x.host);
          }
        }
        assert InsertByHost(r, sorted)[1..] == sorted;
      }
    }
  }

  lemma {:induction false} SortAscends(records: seq<DomainState>)
    requires DistinctHosts(records)
    ensures Ascending(SortByHost(records))
    ensures forall x :: x in SortByHost(records) <==> x in records
  {
    if records != [] {
      SortAscends(records[1..]);
      InsertMembers(records[0], SortByHost(records[1..]));
      InsertAscends(records[0], SortByHost(records[1..]));
      assert records == [records[0]] + records[1..];
    }
  }

  lemma {:induction false} AscendingIsDistinct(records: seq<DomainState>)
    requires Ascending(records)
    ensures DistinctHosts(records)
  {
    if records != [] {
      forall r <- records[1..]
        ensures r.host != records[0].host
      {
        BeforeIsTotal(r.host, records[0].host);
      }
      AscendingIsDistinct(records[1..]);
    }
  }

  lemma AscendingTail(s: seq<DomainState>, x: DomainState)
    requires Ascending(s) && s != []
    ensures x in s[1..] <==> x in s && x != s[0]
    ensures x in s && x != s[0] ==> Before(s[0].host, x.host)
  {
    assert s == [s[0]] + s[1..];
    BeforeIsTotal(s[0].host, s[0].host);
  }

  lemma AscendingHeads(s: seq<DomainState>, t: seq<DomainState>)
    requires Ascending(s) && Ascending(t) && s != [] && t != []
    requires forall x :: x in s <==> x in t
    ensures s[0] == t[0] && forall x :: x in s[1..] <==> x in t[1..]
  {
    assert s[0] in t && t[0] in s;
    AscendingTail(s, t[0]);
    AscendingTail(t, s[0]);
    BeforeIsTotal(s[0].host, t[0].host);
    forall x
      ensures x in s[1..] <==> x in t[1..]
    {
      AscendingTail(s, x);
      AscendingTail(t, x);
    }
  }

  /** Ascending records are determined by their members. */
  lemma {:induction false} AscendingUnique(s: seq<DomainState>, t: seq<DomainState>)
    requires Ascending(s) && Ascending(t) && forall x :: x in s <==> x in t
    ensures s == t
  {
    assert t != [] ==> t[0] in s;
    if s != [] {
      assert s[0] in t;
      AscendingHeads(s, t);
      AscendingUnique(s[1..], t[1..]);
      assert s == [s[0]] + s[1..] && t == [t[0]] + t[1..];
    }
  }

  // -- maps and lists ------------------------------------------------------------------------

  ghost predicate Enumerates(records: seq<DomainState>, m: Hosts) {
    && DistinctHosts(records)
    && (forall r <- records :: r.host in m && m[r.host] == r)
    && forall h <- m :: m[h] in records
  }

  /** The values of a map, in whatever order its iterator yields them. */
  method Values(m: Hosts) returns (records: seq<DomainState>)
    requires KeysAreHosts(m)
    ensures Enumerates(records, m)
  {
    records := [];
    var left := m.Keys;
    while left != {}
      invariant left <= m.Keys
      invariant DistinctHosts(records)
      invariant forall r <- records :: r.host in m && m[r.host] == r && r.host !in left
      invariant forall h <- m :: h in left || m[h] in records
      decreases |left|
    {
      var h :| h in left;
      assert ([m[h]] + records)[1..] == records;
      records := [m[h]] + records;
      left := left - {h};
    }
  }

  /** The file's order does not depend on the iterator's. */
  lemma SortForgetsOrder(r: seq<DomainState>, s: seq<DomainState>, m: Hosts)
    requires Enumerates(r, m) && Enumerates(s, m)
    ensures SortByHost(r) == SortByHost(s)
  {
    SortAscends(r);
    SortAscends(s);
    AscendingUnique(SortByHost(r), SortByHost(s));
  }

  /** Reading records into a map: later ones replace earlier ones of the same host. */
  function Collect(records: seq<DomainState>): Hosts {
    if records == [] then map[]
    else
      var last := records[|records| - 1];
      Collect(records[..|records| - 1])[last.host := last]
  }

  /** On load a host that appears more than once keeps its last occurrence. */
  lemma {:induction false} LastOccurrenceWins(records: seq<DomainState>, i: nat)
    requires i < |records| && forall j :: i < j < |records| ==> records[j].host != records[i].host
    ensures records[i].host in Collect(records) && Collect(records)[records[i].host] == records[i]
  {
    var n := |records| - 1;
    if i < n {
      LastOccurrenceWins(records[..n], i);
    }
  }

  lemma {:induction false} CollectKeysAreHosts(records: seq<DomainState>)
    ensures KeysAreHosts(Collect(records))
    ensures forall h <- Collect(records) :: Collect(records)[h] in records
  {
    if records != [] {
      CollectKeysAreHosts(records[..|records| - 1]);
    }
  }

  lemma {:induction false} DistinctApart(records: seq<DomainState>, i: nat, j: nat)
    requires DistinctHosts(records) && i < j < |records|
    ensures records[j].host != records[i].host
  {
    if i == 0 {
      assert records[j] == records[1..][j - 1];
    } else {
      DistinctApart(records[1..], i - 1, j - 1);
    }
  }

  lemma CollectUndoesEnumeration(records: seq<DomainState>, m: Hosts)
    requires KeysAreHosts(m) && Enumerates(records, m)
    ensures Collect(records) == m
  {
    CollectKeysAreHosts(records);
    forall h <- m
      ensures h in Collect(records) && Collect(records)[h] == m[h]
    {
      var i :| 0 <= i < |records| && records[i] == m[h];
      forall j | i < j < |records|
        ensures records[j].host != records[i].host
      {
        DistinctApart(records, i, j);
      }
      LastOccurrenceWins(records, i);
    }
  }

  datatype StoreError = Unreadable | Undecodable | NotWritten

  function Load(codec: Codec, file: Option<seq<byte>>): Result<Hosts, StoreError> {
    match file
    case None => Ok(map[])
    case Some(bytes) =>
      if IsBlank(bytes) then Ok(map[])
      else match codec.decode(bytes)
           case None => Err(Undecodable)
           case Some(records) => Ok(Collect(records))
  }

  /** A missing file and one of white space alone open empty; of any other the records decoded
      count, and one that does not decode is an error. */
  lemma LoadSays(codec: Codec, bytes: seq<byte>)
    ensures Load(codec, None) == Ok(map[])
    ensures (forall b <- bytes :: b in {0x20, 0x09, 0x0a, 0x0c, 0x0d}) ==> Load(codec, Some(bytes)) == Ok(map[])
    ensures Load(codec, Some(bytes)).Err? <==>
              codec.decode(bytes).None? && exists b <- bytes :: b !in {0x20, 0x09, 0x0a, 0x0c, 0x0d}
    ensures Load(codec, Some(bytes)).Err? ==> Load(codec, Some(bytes)).error == Undecodable
  {
  }

  lemma LoadKeysAreHosts(codec: Codec, file: Option<seq<byte>>)
    ensures Load(codec, file).Ok? ==> KeysAreHosts(Load(codec, file).value)
  {
    if file.Some? && codec.decode(file.value).Some? {
      CollectKeysAreHosts(codec.decode(file.value).value);
    }
  }

  /** What a file written from `m` holds, whatever order `m` was enumerated in. */
  ghost predicate Pictures(codec: Codec, bytes: seq<byte>, m: Hosts) {
    exists records :: Enumerates(records, m) && bytes == codec.encode(SortByHost(records))
  }

  lemma PictureUnique(codec: Codec, a: seq<byte>, b: seq<byte>, m: Hosts)
    requires Pictures(codec, a, m) && Pictures(codec, b, m)
    ensures a == b
  {
    var r :| Enumerates(r, m) && a == codec.encode(SortByHost(r));
    var s :| Enumerates(s, m) && b == codec.encode(SortByHost(s));
    SortForgetsOrder(r, s, m);
  }

  /** Loading undoes flushing. It rests on every key being its record's host. */
  lemma LoadUndoesFlush(codec: Codec, bytes: seq<byte>, m: Hosts)
    requires Faithful(codec) && KeysAreHosts(m) && Pictures(codec, bytes, m)
    ensures Load(codec, Some(bytes)) == Ok(m)
  {
    var records :| Enumerates(records, m) && bytes == codec.encode(SortByHost(records));
    SortAscends(records);
    AscendingIsDistinct(SortByHost(records));
    assert Enumerates(SortByHost(records), m);
    CollectUndoesEnumeration(SortByHost(records), m);
  }
}
