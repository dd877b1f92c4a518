/**
 * Merging the requests of subblocks by type. The types and the sizes of their records come from
 * EIP-6110 (deposits), EIP-7002 (withdrawals) and EIP-7251 (consolidations).
 */
module Requests {
  import opened Primitives
  import opened Rlp

  const DEPOSIT: Byte := 0
  const WITHDRAWAL: Byte := 1
  const CONSOLIDATION: Byte := 2

  /** A request starts with its type; its data is a list of records. */
  type Request = Bytes

  /** The remainder by zero, on a request of unknown type without data. */
  datatype MergeFailure = DivisionByZero

  function RecordSize(kind: Byte, length: nat): nat {
    if kind == DEPOSIT then 192
    else if kind == WITHDRAWAL then 76
    else if kind == CONSOLIDATION then 116
    else length
  }

  predicate DividesByZero(request: Request) {
    request != [] && RecordSize(request[0], |request| - 1) == 0
  }

  /** The pieces of the given size; the last one may be shorter. */
  function Chunks(data: Bytes, size: nat): seq<Bytes>
    requires size > 0
    decreases |data|
  {
    if data == [] then []
    else if |data| <= size then [data]
    else [data[..size]] + Chunks(data[size..], size)
  }

  /** The records of a request; data that is not a whole number of records counts as one record. */
  function Records(request: Request): seq<Bytes> {
    if request == [] || DividesByZero(request) then []
    else
      var data := request[1..];
      var size := RecordSize(request[0], |data|);
      Chunks(data, if |data| % size == 0 then size else |data|)
  }

  // What the merge is.

  /** The members of a list in the order in which they first appear. */
  function Distinct<T(==,!new)>(s: seq<T>): (d: seq<T>)
    ensures forall x :: x in d <==> x in s
    ensures forall i, j :: 0 <= i < j < |d| ==> d[i] != d[j]
  {
    if s == [] then []
    else
      var rest, last := Distinct(s[..|s| - 1]), s[|s| - 1];
      assert s == s[..|s| - 1] + [last];
      if last in rest then rest else rest + [last]
  }

  function Types(requests: seq<Request>): seq<Byte> {
    if requests == [] then []
    else
      var last := requests[|requests| - 1];
      Types(requests[..|requests| - 1]) + if last == [] then [] else [last[0]]
  }

  /** All records of one type, in order. */
  function RecordsOf(kind: Byte, requests: seq<Request>): seq<Bytes> {
    if requests == [] then []
    else
      var last := requests[|requests| - 1];
      RecordsOf(kind, requests[..|requests| - 1])
        + if last != [] && last[0] == kind then Records(last) else []
  }

  /** One request per type, in the order of first appearance, with each distinct record once. */
  function Merged(requests: seq<Request>): (merged: seq<Request>)
    ensures |merged| == |Distinct(Types(requests))|
    ensures forall i :: 0 <= i < |merged| ==>
      merged[i] == OfType(Distinct(Types(requests))[i], requests)
  {
    var kinds := Distinct(Types(requests));
    seq(|kinds|, i requires 0 <= i < |kinds| => OfType(kinds[i], requests))
  }

  function OfType(kind: Byte, requests: seq<Request>): (request: Request)
    ensures request != [] && request[0] == kind
  {
    [kind] + Concat(Distinct(RecordsOf(kind, requests)))
  }

  /** What `merge_requests` leaves behind: it does not touch fewer than two requests. */
  function AfterMerge(requests: seq<Request>): seq<Request> {
    if |requests| <= 1 then requests else Merged(requests)
  }

  ghost predicate MergePanics(requests: seq<Request>) {
    |requests| > 1 && exists i :: 0 <= i < |requests| && DividesByZero(requests[i])
  }

  /** Merging panics exactly on a request of unknown type without data, among at least two. */
  lemma MergePanicsIff(requests: seq<Request>)
    ensures MergePanics(requests)
      <==> |requests| > 1 && exists i :: 0 <= i < |requests| && |requests[i]| == 1 && requests[i][0] > 2
  {
    forall i | 0 <= i < |requests| ensures DividesByZero(requests[i]) <==> |requests[i]| == 1 && requests[i][0] > 2 {}
  }

  // The loops.

  method MergeRequests(requests: seq<Request>) returns (result: Result<seq<Request>, MergeFailure>)
    ensures result.Failure? <==> MergePanics(requests)
    ensures result.Success? ==> result.value == AfterMerge(requests)
    ensures |requests| <= 1 ==> result == Success(requests)
  {
    if |requests| <= 1 {
      return Success(requests);
    }
    var processed: set<(Byte, Bytes)> := {};
    var merged: seq<Request> := [];
    for i := 0 to |requests|
      invariant forall j :: 0 <= j < i ==> !DividesByZero(requests[j])
      invariant ProcessedAre(processed, requests[..i]) && merged == Merged(requests[..i])
    {
      assert requests[..i + 1] == requests[..i] + [requests[i]];
      if DividesByZero(requests[i]) {
        return Failure(DivisionByZero);
      }
      processed, merged := AddRequest(requests[i], processed, merged, requests[..i]);
    }
    assert requests[..|requests|] == requests;
    result := Success(merged);
  }

  /** The records that were seen, with their types. */
  ghost predicate ProcessedAre(processed: set<(Byte, Bytes)>, requests: seq<Request>) {
    forall kind: Byte, record: Bytes :: (kind, record) in processed <==> record in RecordsOf(kind, requests)
  }

  method AddRequest(
      request: Request, processed: set<(Byte, Bytes)>, merged: seq<Request>, ghost before: seq<Request>)
    returns (processed': set<(Byte, Bytes)>, merged': seq<Request>)
    requires !DividesByZero(request)
    requires ProcessedAre(processed, before) && merged == Merged(before)
    ensures ProcessedAre(processed', before + [request]) && merged' == Merged(before + [request])
  {
    if request == [] {
      SkipEmpty(before, processed);
      return processed, merged;
    }
    var kind := request[0];
    var data;
    ghost var added;
    processed', data, added := TakeUnseen(kind, Records(request), processed, RecordsOf(kind, before));
    var j := FindType(merged, kind);
    merged' := if j < |merged| then merged[j := merged[j] + data] else merged + [[kind] + data];
    ProcessedOneMore(before, request, processed, processed');
    MergedOneMore(before, request, added, j);
  }

  method FindType(merged: seq<Request>, kind: Byte) returns (j: nat)
    requires forall i :: 0 <= i < |merged| ==> merged[i] != []
    ensures j <= |merged|
    ensures forall i :: 0 <= i < j ==> merged[i][0] != kind
    ensures j < |merged| ==> merged[j][0] == kind
  {
    j := 0;
    while j < |merged| && merged[j][0] != kind
      invariant 0 <= j <= |merged|
      invariant forall i :: 0 <= i < j ==> merged[i][0] != kind
    {
      j := j + 1;
    }
  }

  /** The data of the records that were not seen before, each once. */
  method TakeUnseen(kind: Byte, records: seq<Bytes>, processed: set<(Byte, Bytes)>, ghost seen: seq<Bytes>)
    returns (processed': set<(Byte, Bytes)>, data: Bytes, ghost added: seq<Bytes>)
    requires forall record: Bytes :: (kind, record) in processed <==> record in seen
    ensures forall k: Byte, record: Bytes :: (k, record) in processed' <==>
      (k, record) in processed || (k == kind && record in records)
    ensures data == Concat(added)
    ensures Distinct(seen + records) == Distinct(seen) + added
  {
    processed', data, added := processed, [], [];
    TakenNone(seen, records);
    for j := 0 to |records|
      invariant processed' == processed + (set record | record in records[..j] :: (kind, record))
      invariant Taken(seen, records, j, data, added)
    {
      TakenOneMore(seen, records, j, data, added);
      if (kind, records[j]) !in processed' {
        data, added := data + records[j], added + [records[j]];
        processed' := processed' + {(kind, records[j])};
      }
    }
    assert records[..|records|] == records;
  }

  /** What the first records add to those that were seen. */
  ghost predicate Taken(seen: seq<Bytes>, records: seq<Bytes>, j: nat, data: Bytes, added: seq<Bytes>)
    requires j <= |records|
  {
    data == Concat(added) && Distinct(seen + records[..j]) == Distinct(seen) + added
  }

  lemma TakenNone(seen: seq<Bytes>, records: seq<Bytes>)
    ensures Taken(seen, records, 0, [], [])
  {
    assert seen + records[..0] == seen;
  }

  lemma TakenOneMore(seen: seq<Bytes>, records: seq<Bytes>, j: nat, data: Bytes, added: seq<Bytes>)
    requires j < |records| && Taken(seen, records, j, data, added)
    ensures records[..j + 1] == records[..j] + [records[j]]
    ensures if records[j] in seen + records[..j] then Taken(seen, records, j + 1, data, added)
      else Taken(seen, records, j + 1, data + records[j], added + [records[j]])
  {
    OneMoreRecord(seen, records, j);
    ConcatAppend(added, [records[j]]);
  }

  lemma OneMoreRecord(seen: seq<Bytes>, records: seq<Bytes>, j: nat)
    requires j < |records|
    ensures records[..j + 1] == records[..j] + [records[j]]
    ensures Distinct(seen + records[..j + 1])
      == Distinct(seen + records[..j]) + if records[j] in seen + records[..j] then [] else [records[j]]
  {
    assert records[..j + 1] == records[..j] + [records[j]];
    DistinctAppend(seen, records[..j], records[j]);
  }

  lemma DistinctOneMore<T(!new)>(s: seq<T>, x: T)
    ensures Distinct(s + [x]) == Distinct(s) + if x in s then [] else [x]
  {
    assert (s + [x])[..|s|] == s;
  }

  lemma AddedToType(before: seq<Request>, request: Request, kind: Byte)
    ensures Types(before + [request]) == if request == [] then Types(before) else Types(before) + [request[0]]
    ensures RecordsOf(kind, before + [request])
      == if request != [] && request[0] == kind then RecordsOf(kind, before) + Records(request)
         else RecordsOf(kind, before)
  {
    assert (before + [request])[..|before|] == before;
  }

  lemma SkipEmpty(before: seq<Request>, processed: set<(Byte, Bytes)>)
    requires ProcessedAre(processed, before)
    ensures ProcessedAre(processed, before + [[]]) && Merged(before + [[]]) == Merged(before)
  {
    forall kind: Byte ensures RecordsOf(kind, before + [[]]) == RecordsOf(kind, before) {
      AddedToType(before, [], kind);
    }
    AddedToType(before, [], 0);
    Pointwise(Merged(before + [[]]), Merged(before));
  }

  lemma Pointwise(a: seq<Bytes>, b: seq<Bytes>)
    requires |a| == |b| && forall i :: 0 <= i < |a| ==> a[i] == b[i]
    ensures a == b
  {}

  lemma ProcessedOneMore(
      before: seq<Request>, request: Request, processed: set<(Byte, Bytes)>, processed': set<(Byte, Bytes)>)
    requires request != [] && ProcessedAre(processed, before)
    requires forall k: Byte, record: Bytes :: (k, record) in processed' <==>
      (k, record) in processed || (k == request[0] && record in Records(request))
    ensures ProcessedAre(processed', before + [request])
  {
    forall kind: Byte, record: Bytes
      ensures (kind, record) in processed' <==> record in RecordsOf(kind, before + [request])
    {
      AddedToType(before, request, kind);
    }
  }

  /** One more request changes the merge at its type only. */
  lemma MergedOneMore(before: seq<Request>, request: Request, added: seq<Bytes>, j: nat)
    requires request != []
    requires Distinct(RecordsOf(request[0], before) + Records(request))
      == Distinct(RecordsOf(request[0], before)) + added
    requires j <= |Merged(before)|
    requires forall i :: 0 <= i < j ==> Merged(before)[i][0] != request[0]
    requires j < |Merged(before)| ==> Merged(before)[j][0] == request[0]
    ensures var merged, data := Merged(before), Concat(added);
      Merged(before + [request])
        == if j < |merged| then merged[j := merged[j] + data] else merged + [[request[0]] + data]
  {
    var kinds, merged := Distinct(Types(before)), Merged(before);
    MergedTypes(before, request, added);
    MergedHeads(before);
    Spliced(kinds, request[0], merged, Concat(added), j, Merged(before + [request]));
  }

  lemma MergedHeads(requests: seq<Request>)
    ensures var kinds, merged := Distinct(Types(requests)), Merged(requests);
      |merged| == |kinds| && forall i :: 0 <= i < |merged| ==> merged[i] != [] && merged[i][0] == kinds[i]
  {
    forall i | 0 <= i < |Merged(requests)|
      ensures Merged(requests)[i] != [] && Merged(requests)[i][0] == Distinct(Types(requests))[i]
    {
      assert Merged(requests)[i] == OfType(Distinct(Types(requests))[i], requests);
    }
  }

  lemma TypesOneMore(before: seq<Request>, request: Request)
    requires request != []
    ensures Distinct(Types(before + [request]))
      == if request[0] in Distinct(Types(before)) then Distinct(Types(before))
         else Distinct(Types(before)) + [request[0]]
  {
    AddedToType(before, request, request[0]);
    DistinctOneMore(Types(before), request[0]);
  }

  /** The merged requests before and after one more request, type by type. */
  lemma MergedTypes(before: seq<Request>, request: Request, added: seq<Bytes>)
    requires request != []
    requires Distinct(RecordsOf(request[0], before) + Records(request))
      == Distinct(RecordsOf(request[0], before)) + added
    ensures var kind, kinds, after := request[0], Distinct(Types(before)), Merged(before + [request]);
      && |after| == (if kind in kinds then |kinds| else |kinds| + 1)
      && (forall i :: 0 <= i < |kinds| ==>
            after[i] == if kinds[i] == kind then Merged(before)[i] + Concat(added) else Merged(before)[i])
      && (kind !in kinds ==> after[|kinds|] == [kind] + Concat(added))
  {
    var kind, kinds := request[0], Distinct(Types(before));
    TypesOneMore(before, request);
    forall i | 0 <= i < |kinds|
      ensures Merged(before + [request])[i]
           == if kinds[i] == kind then Merged(before)[i] + Concat(added) else Merged(before)[i]
    {
      MergedType(before, request, added, kinds[i]);
    }
    if kind !in kinds {
      MergedType(before, request, added, kind);
      NoRecordsWithoutType(kind, before);
      assert OfType(kind, before) == [kind];
    }
  }

  lemma Spliced(kinds: seq<Byte>, kind: Byte, merged: seq<Request>, data: Bytes, j: nat, after: seq<Request>)
    requires forall i, m :: 0 <= i < m < |kinds| ==> kinds[i] != kinds[m]
    requires |merged| == |kinds| && forall i :: 0 <= i < |merged| ==> merged[i] != [] && merged[i][0] == kinds[i]
    requires |after| == if kind in kinds then |kinds| else |kinds| + 1
    requires forall i :: 0 <= i < |kinds| ==> after[i] == if kinds[i] == kind then merged[i] + data else merged[i]
    requires kind !in kinds ==> after[|kinds|] == [kind] + data
    requires j <= |merged| && forall i :: 0 <= i < j ==> merged[i][0] != kind
    requires j < |merged| ==> merged[j][0] == kind
    ensures after == if j < |merged| then merged[j := merged[j] + data] else merged + [[kind] + data]
  {}

  /** The merged request of one type before and after one more request. */
  lemma MergedType(before: seq<Request>, request: Request, added: seq<Bytes>, kind: Byte)
    requires request != []
    requires Distinct(RecordsOf(request[0], before) + Records(request))
      == Distinct(RecordsOf(request[0], before)) + added
    ensures OfType(kind, before + [request])
      == if kind == request[0] then OfType(kind, before) + Concat(added) else OfType(kind, before)
  {
    AddedToType(before, request, kind);
    if kind == request[0] {
      var known := Distinct(RecordsOf(kind, before));
      ConcatAppend(known, added);
      Assoc([kind], Concat(known), Concat(added));
    }
  }

  lemma {:induction false} NoRecordsWithoutType(kind: Byte, requests: seq<Request>)
    requires kind !in Types(requests)
    ensures RecordsOf(kind, requests) == []
  {
    if requests != [] {
      NoRecordsWithoutType(kind, requests[..|requests| - 1]);
    }
  }

  // What merging promises.

  /** A request of a known type whose data is a whole number of records. */
  predicate Whole(request: Request) {
    && request != [] && request[0] <= CONSOLIDATION
    && (|request| - 1) % RecordSize(request[0], 0) == 0
  }

  predicate AllWhole(requests: seq<Request>) {
    forall i :: 0 <= i < |requests| ==> Whole(requests[i])
  }

  predicate AllOfSize(records: seq<Bytes>, size: nat) {
    forall i :: 0 <= i < |records| ==> |records[i]| == size
  }

  /** The order of `Distinct` is that of first appearance: an earlier member appears before a later one does. */
  lemma {:induction false} FirstAppearances<T(!new)>(s: seq<T>, i: nat, j: nat)
    requires i < j < |Distinct(s)|
    ensures exists p :: 0 <= p < |s| && s[p] == Distinct(s)[i] && Distinct(s)[j] !in s[..p + 1]
  {
    var rest := s[..|s| - 1];
    if j < |Distinct(rest)| {
      FirstAppearances(rest, i, j);
      var p :| 0 <= p < |rest| && rest[p] == Distinct(rest)[i] && Distinct(rest)[j] !in rest[..p + 1];
      assert s[..p + 1] == rest[..p + 1];
    } else {
      assert Distinct(s)[i] in rest;
      var p :| 0 <= p < |rest| && rest[p] == Distinct(s)[i];
      assert forall q :: 0 <= q <= p ==> s[..p + 1][q] == rest[q];
    }
  }

  lemma {:induction false} ChunksConcat(records: seq<Bytes>, size: nat)
    requires IsRecordSize(size) && AllOfSize(records, size)
    ensures |Concat(records)| % size == 0
    ensures Chunks(Concat(records), size) == records
  {
    if records != [] {
      var rest := records[1..];
      ChunksConcat(rest, size);
      var data := Concat(records);
      assert data[..size] == records[0] && data[size..] == Concat(rest);
      AddSize(|Concat(rest)|, size);
      if rest == [] {
        assert data == records[0];
      } else {
        assert rest[0] != [] && Concat(rest) == rest[0] + Concat(rest[1..]);
      }
    }
  }

  predicate IsRecordSize(size: nat) {
    size == 192 || size == 76 || size == 116
  }

  lemma AddSize(n: nat, size: nat)
    requires IsRecordSize(size)
    ensures (n + size) % size == n % size
    ensures n < size ==> n % size == n
  {
    if size == 192 {
      assert (n + 192) % 192 == n % 192;
    } else if size == 76 {
      assert (n + 76) % 76 == n % 76;
    } else {
      assert (n + 116) % 116 == n % 116;
    }
  }

  lemma {:induction false} ChunksOfSize(data: Bytes, size: nat)
    requires IsRecordSize(size) && |data| % size == 0
    ensures AllOfSize(Chunks(data, size), size)
    decreases |data|
  {
    if |data| > size {
      AddSize(|data| - size, size);
      ChunksOfSize(data[size..], size);
    } else if 0 < |data| < size {
      AddSize(|data|, size);
    }
  }

  lemma {:induction false} WholeRecords(kind: Byte, requests: seq<Request>)
    requires AllWhole(requests)
    ensures AllOfSize(RecordsOf(kind, requests), RecordSize(kind, 0))
  {
    if requests != [] {
      var last := requests[|requests| - 1];
      WholeRecords(kind, requests[..|requests| - 1]);
      if last[0] == kind {
        ChunksOfSize(last[1..], RecordSize(kind, 0));
      }
    }
  }

  lemma {:induction false} HeadTypes(requests: seq<Request>)
    requires forall i :: 0 <= i < |requests| ==> requests[i] != []
    ensures |Types(requests)| == |requests|
    ensures forall i :: 0 <= i < |requests| ==> Types(requests)[i] == requests[i][0]
  {
    if requests != [] {
      HeadTypes(requests[..|requests| - 1]);
    }
  }

  // When a merged request reads back as its records.

  /** The type has at most one distinct record, or all its records have the size of the type. */
  predicate SeparableType(kind: Byte, requests: seq<Request>) {
    || |Distinct(RecordsOf(kind, requests))| <= 1
    || (kind <= CONSOLIDATION && AllOfSize(RecordsOf(kind, requests), RecordSize(kind, 0)))
  }

  /** Every type can be cut into its records again after its data was joined. */
  ghost predicate Separable(requests: seq<Request>) {
    forall kind: Byte :: SeparableType(kind, requests)
  }

  lemma WholeSeparable(requests: seq<Request>)
    requires AllWhole(requests)
    ensures Separable(requests)
  {
    forall kind: Byte ensures SeparableType(kind, requests) {
      WholeRecords(kind, requests);
      if kind > CONSOLIDATION {
        HeadTypes(requests);
        NoRecordsWithoutType(kind, requests);
      }
    }
  }

  /** A record is not empty, and of a known type it is of that type's size or no whole number of such. */
  predicate WellCut(kind: Byte, record: Bytes) {
    record != [] && (kind <= CONSOLIDATION ==>
      |record| == RecordSize(kind, 0) || |record| % RecordSize(kind, 0) != 0)
  }

  lemma RecordsWellCut(request: Request)
    requires request != []
    ensures forall r :: r in Records(request) ==> WellCut(request[0], r)
  {
    if !DividesByZero(request) {
      var data := request[1..];
      var size := RecordSize(request[0], |data|);
      if request[0] <= CONSOLIDATION && |data| % size == 0 {
        ChunksOfSize(data, size);
      }
    }
  }

  lemma {:induction false} AllWellCut(kind: Byte, requests: seq<Request>)
    ensures forall r :: r in RecordsOf(kind, requests) ==> WellCut(kind, r)
  {
    if requests != [] {
      var last := requests[|requests| - 1];
      AllWellCut(kind, requests[..|requests| - 1]);
      if last != [] {
        RecordsWellCut(last);
      }
    }
  }

  /** A record alone reads back. */
  lemma OneRecord(kind: Byte, record: Bytes)
    requires WellCut(kind, record)
    ensures Records([kind] + record) == [record]
  {
    assert ([kind] + record)[1..] == record;
  }

  /** A merged request reads back as the distinct records of its type. */
  lemma MergedReadsBack(kind: Byte, requests: seq<Request>)
    requires SeparableType(kind, requests)
    ensures Records(OfType(kind, requests)) == Distinct(RecordsOf(kind, requests))
  {
    var records := Distinct(RecordsOf(kind, requests));
    AllWellCut(kind, requests);
    if |records| == 1 {
      assert records[0] in RecordsOf(kind, requests);
      assert Concat(records) == records[0] && records == [records[0]];
      OneRecord(kind, records[0]);
    } else if records != [] {
      forall i | 0 <= i < |records| ensures |records[i]| == RecordSize(kind, 0) {
        assert records[i] in RecordsOf(kind, requests);
      }
      ChunksConcat(records, RecordSize(kind, 0));
      assert OfType(kind, requests)[1..] == Concat(records);
    }
  }

  lemma MergedTypeWhole(kind: Byte, requests: seq<Request>)
    requires AllWhole(requests) && kind <= CONSOLIDATION
    ensures Whole(OfType(kind, requests))
  {
    var records := Distinct(RecordsOf(kind, requests));
    WholeRecords(kind, requests);
    forall i | 0 <= i < |records| ensures |records[i]| == RecordSize(kind, 0) {
      assert records[i] in RecordsOf(kind, requests);
    }
    ChunksConcat(records, RecordSize(kind, 0));
  }

  ghost predicate DistinctHeads(requests: seq<Request>) {
    && (forall i :: 0 <= i < |requests| ==> requests[i] != [])
    && forall i, j :: 0 <= i < j < |requests| ==> requests[i][0] != requests[j][0]
  }

  /** With distinct types, the records of a type are those of its only request. */
  lemma {:induction false} RecordsOfDistinctTypes(requests: seq<Request>, i: nat)
    requires DistinctHeads(requests) && i < |requests|
    ensures RecordsOf(requests[i][0], requests) == Records(requests[i])
  {
    var rest, last := requests[..|requests| - 1], requests[|requests| - 1];
    assert rest + [last] == requests;
    AddedToType(rest, last, requests[i][0]);
    if i < |rest| {
      RecordsOfDistinctTypes(rest, i);
    } else {
      HeadTypes(rest);
      NoRecordsWithoutType(last[0], rest);
    }
  }

  /** The merge has one request per type. */
  lemma MergedKinds(requests: seq<Request>)
    ensures Types(Merged(requests)) == Distinct(Types(requests)) && DistinctHeads(Merged(requests))
  {
    MergedHeads(requests);
    HeadTypes(Merged(requests));
  }

  /** What the merge holds of a type is what its request of that type reads back as. */
  lemma MergedRecords(requests: seq<Request>, kind: Byte)
    requires kind in Types(requests)
    ensures RecordsOf(kind, Merged(requests)) == Records(OfType(kind, requests))
  {
    MergedKinds(requests);
    var i :| 0 <= i < |Distinct(Types(requests))| && Distinct(Types(requests))[i] == kind;
    RecordsOfDistinctTypes(Merged(requests), i);
  }

  /** The merge has one request per type, in order of first appearance, with each distinct record once. */
  lemma MergedContents(requests: seq<Request>, kind: Byte)
    requires Separable(requests)
    ensures Types(Merged(requests)) == Distinct(Types(requests))
    ensures RecordsOf(kind, Merged(requests)) == Distinct(RecordsOf(kind, requests))
  {
    MergedKinds(requests);
    if kind in Types(requests) {
      MergedRecords(requests, kind);
      MergedReadsBack(kind, requests);
    } else {
      NoRecordsWithoutType(kind, requests);
      NoRecordsWithoutType(kind, Merged(requests));
    }
  }

  // The merge of whole requests, with the sizes of their records.

  /** A record of a deposit, a withdrawal or a consolidation, and nothing else. */
  predicate IsRecord(kind: Byte, record: Bytes) {
    || (kind == 0 && |record| == 192)
    || (kind == 1 && |record| == 76)
    || (kind == 2 && |record| == 116)
  }

  /** The requests have these types, and these records as their data. */
  ghost predicate Hold(requests: seq<Request>, kinds: seq<Byte>, lists: seq<seq<Bytes>>) {
    && |requests| == |kinds| == |lists|
    && forall i :: 0 <= i < |requests| ==> Holds(requests[i], kinds[i], lists[i])
  }

  ghost predicate Holds(request: Request, kind: Byte, records: seq<Bytes>) {
    && request == [kind] + Concat(records) && kind <= 2
    && forall k :: 0 <= k < |records| ==> IsRecord(kind, records[k])
  }

  /** The records of all lists of one type, in order. */
  function AllOfKind(kind: Byte, kinds: seq<Byte>, lists: seq<seq<Bytes>>): seq<Bytes>
    requires |kinds| == |lists|
  {
    if kinds == [] then []
    else
      var last := |kinds| - 1;
      AllOfKind(kind, kinds[..last], lists[..last]) + if kinds[last] == kind then lists[last] else []
  }

  lemma RecordsHeld(request: Request, kind: Byte, records: seq<Bytes>)
    requires Holds(request, kind, records)
    ensures !DividesByZero(request) && ReadsAs(request, kind, records)
  {
    ChunksConcat(records, if kind == 0 then 192 else if kind == 1 then 76 else 116);
    assert request[1..] == Concat(records);
  }

  predicate ReadsAs(request: Request, kind: Byte, records: seq<Bytes>) {
    request != [] && request[0] == kind && Records(request) == records
  }

  lemma {:induction false} AllReadAs(kind: Byte, requests: seq<Request>, kinds: seq<Byte>, lists: seq<seq<Bytes>>)
    requires |requests| == |kinds| == |lists|
    requires forall i :: 0 <= i < |requests| ==> ReadsAs(requests[i], kinds[i], lists[i])
    ensures RecordsOf(kind, requests) == AllOfKind(kind, kinds, lists) && Types(requests) == kinds
    decreases |requests|
  {
    if requests != [] {
      var last := |requests| - 1;
      assert ReadsAs(requests[last], kinds[last], lists[last]);
      AllReadAs(kind, requests[..last], kinds[..last], lists[..last]);
      assert kinds == kinds[..last] + [kinds[last]];
    }
  }

  /**
   * At least two whole requests become one per type, in the order in which the types first appear,
   * and each holds the distinct records of its type, in the order in which they first appear.
   */
  lemma WholeMergeIs(requests: seq<Request>, kinds: seq<Byte>, lists: seq<seq<Bytes>>)
    requires Hold(requests, kinds, lists) && |requests| > 1
    ensures !MergePanics(requests) && |AfterMerge(requests)| == |Distinct(kinds)|
    ensures forall j :: 0 <= j < |Distinct(kinds)| ==> var kind := Distinct(kinds)[j];
      AfterMerge(requests)[j] == [kind] + Concat(Distinct(AllOfKind(kind, kinds, lists)))
  {
    forall i | 0 <= i < |requests|
      ensures !DividesByZero(requests[i]) && ReadsAs(requests[i], kinds[i], lists[i])
    {
      RecordsHeld(requests[i], kinds[i], lists[i]);
    }
    forall kind ensures RecordsOf(kind, requests) == AllOfKind(kind, kinds, lists) && Types(requests) == kinds {
      AllReadAs(kind, requests, kinds, lists);
    }
  }

  /** Data that is no whole number of records, or of an unknown type, counts as one record. */
  lemma OddDataIsOneRecord(kind: Byte, data: Bytes)
    requires data != []
    requires kind == 0 ==> |data| % 192 != 0
    requires kind == 1 ==> |data| % 76 != 0
    requires kind == 2 ==> |data| % 116 != 0
    ensures Records([kind] + data) == [data]
  {
    assert ([kind] + data)[1..] == data;
  }

  /** A merge of whole requests of known types is one of such requests. */
  lemma MergedWhole(requests: seq<Request>)
    requires AllWhole(requests)
    ensures AllWhole(Merged(requests))
  {
    HeadTypes(requests);
    forall i | 0 <= i < |Merged(requests)| ensures Whole(Merged(requests)[i]) {
      assert Distinct(Types(requests))[i] in Types(requests);
      MergedTypeWhole(Distinct(Types(requests))[i], requests);
    }
  }

  lemma {:induction false} DistinctEarly<T(!new)>(a: seq<T>, b: seq<T>)
    ensures Distinct(Distinct(a) + b) == Distinct(a + b)
  {
    if b == [] {
      assert a + b == a && Distinct(a) + b == Distinct(a);
      DistinctTwice(a);
    } else {
      var front, last := b[..|b| - 1], b[|b| - 1];
      DistinctEarly(a, front);
      assert front + [last] == b;
      DistinctAppend(Distinct(a), front, last);
      DistinctAppend(a, front, last);
    }
  }

  lemma DistinctAppend<T(!new)>(a: seq<T>, front: seq<T>, last: T)
    ensures Distinct(a + (front + [last])) == Distinct(a + front) + if last in a + front then [] else [last]
  {
    assert a + (front + [last]) == (a + front) + [last];
    DistinctOneMore(a + front, last);
  }

  lemma {:induction false} DistinctTwice<T(!new)>(a: seq<T>)
    ensures Distinct(Distinct(a)) == Distinct(a)
  {
    if a != [] {
      var front, last := a[..|a| - 1], a[|a| - 1];
      DistinctTwice(front);
      if last !in Distinct(front) {
        DistinctOneMore(Distinct(front), last);
      }
    }
  }

  lemma Assoc<T>(a: seq<T>, b: seq<T>, c: seq<T>)
    ensures (a + b) + c == a + (b + c)
  {}

  lemma {:induction false} RecordsAppend(kind: Byte, p: seq<Request>, q: seq<Request>)
    ensures RecordsOf(kind, p + q) == RecordsOf(kind, p) + RecordsOf(kind, q)
  {
    if q == [] {
      assert p + q == p;
    } else {
      var front, last := q[..|q| - 1], q[|q| - 1];
      RecordsAppend(kind, p, front);
      RecordsAppendOne(kind, p, front, last);
      assert front + [last] == q;
    }
  }

  lemma RecordsAppendOne(kind: Byte, p: seq<Request>, front: seq<Request>, last: Request)
    requires RecordsOf(kind, p + front) == RecordsOf(kind, p) + RecordsOf(kind, front)
    ensures RecordsOf(kind, p + (front + [last])) == RecordsOf(kind, p) + RecordsOf(kind, front + [last])
  {
    Assoc(p, front, [last]);
    AddedToType(front, last, kind);
    AddedToType(p + front, last, kind);
    Assoc(RecordsOf(kind, p), RecordsOf(kind, front), Records(last));
  }

  lemma {:induction false} TypesAppend(p: seq<Request>, q: seq<Request>)
    ensures Types(p + q) == Types(p) + Types(q)
  {
    if q == [] {
      assert p + q == p;
    } else {
      var front, last := q[..|q| - 1], q[|q| - 1];
      TypesAppend(p, front);
      TypesAppendOne(p, front, last);
      assert front + [last] == q;
    }
  }

  lemma TypesAppendOne(p: seq<Request>, front: seq<Request>, last: Request)
    requires Types(p + front) == Types(p) + Types(front)
    ensures Types(p + (front + [last])) == Types(p) + Types(front + [last])
  {
    Assoc(p, front, [last]);
    AddedToType(front, last, 0);
    AddedToType(p + front, last, 0);
    if last != [] {
      Assoc(Types(p), Types(front), [last[0]]);
    }
  }

  /** Requests with the same types and the same distinct records have the same merge. */
  lemma SameMerge(a: seq<Request>, b: seq<Request>)
    requires Distinct(Types(a)) == Distinct(Types(b))
    requires forall kind :: Distinct(RecordsOf(kind, a)) == Distinct(RecordsOf(kind, b))
    ensures Merged(a) == Merged(b)
  {
    forall i | 0 <= i < |Merged(a)| ensures Merged(a)[i] == Merged(b)[i] {
      var kind := Distinct(Types(a))[i];
      assert OfType(kind, a) == OfType(kind, b);
    }
    Pointwise(Merged(a), Merged(b));
  }

  lemma EarlyRecords(p: seq<Request>, q: seq<Request>, kind: Byte)
    requires Separable(p)
    ensures Distinct(RecordsOf(kind, Merged(p) + q)) == Distinct(RecordsOf(kind, p + q))
  {
    MergedContents(p, kind);
    RecordsAppend(kind, Merged(p), q);
    RecordsAppend(kind, p, q);
    DistinctEarly(RecordsOf(kind, p), RecordsOf(kind, q));
  }

  lemma EarlyTypes(p: seq<Request>, q: seq<Request>)
    ensures Distinct(Types(Merged(p) + q)) == Distinct(Types(p + q))
    ensures Types(p) != [] ==> Merged(p) != []
  {
    MergedKinds(p);
    DistinctEarly(Types(p), Types(q));
    TypesAppend(Merged(p), q);
    TypesAppend(p, q);
    assert Types(p) != [] ==> Types(p)[0] in Distinct(Types(p));
  }

  /** There is nothing to merge, or there is a type, and every type can be cut into its records again. */
  ghost predicate MergesEarly(p: seq<Request>) {
    |p| <= 1 || (Types(p) != [] && Separable(p))
  }

  /** Merging such requests early does not change the merge of all of them. */
  lemma MergeEarly(p: seq<Request>, q: seq<Request>)
    requires MergesEarly(p)
    ensures AfterMerge(AfterMerge(p) + q) == AfterMerge(p + q)
  {
    if |p| > 1 {
      forall kind: Byte ensures Distinct(RecordsOf(kind, Merged(p) + q)) == Distinct(RecordsOf(kind, p + q)) {
        EarlyRecords(p, q, kind);
      }
      EarlyTypes(p, q);
      SameMerge(Merged(p) + q, p + q);
      if |Merged(p) + q| <= 1 {
        assert q == [] && p + q == p && Merged(p) + q == Merged(p);
      }
    }
  }

  /** Merging twice is merging once. */
  lemma MergeIdempotent(requests: seq<Request>)
    requires Separable(requests)
    ensures AfterMerge(AfterMerge(requests)) == AfterMerge(requests)
  {
    if |requests| > 1 && Types(requests) != [] {
      MergeEarly(requests, []);
      assert AfterMerge(requests) + [] == AfterMerge(requests) && requests + [] == requests;
    }
  }

  // All other requests merge differently.

  lemma ConcatLonger(records: seq<Bytes>)
    requires |records| > 1 && forall i :: 0 <= i < |records| ==> records[i] != []
    ensures |records[0]| < |Concat(records)|
  {
    var rest := records[1..];
    assert Concat(records) == records[0] + Concat(rest) && Concat(rest) == rest[0] + Concat(rest[1..]);
  }

  lemma DistinctOne<T(!new)>(x: T)
    ensures Distinct([x]) == [x]
  {
    DistinctOneMore([], x);
    assert [] + [x] == [x];
  }

  lemma DistinctKnown<T(!new)>(s: seq<T>, x: T)
    requires x in s
    ensures Distinct(s + [x]) == Distinct(s)
  {
    DistinctOneMore(s, x);
  }

  /** The records of the type on both sides when one of its records comes again. */
  lemma RecordAgain(p: seq<Request>, kind: Byte, record: Bytes)
    requires kind in Types(p) && record in RecordsOf(kind, p)
    requires record !in Records(OfType(kind, p))
    ensures var q := [[kind] + record];
      && Distinct(RecordsOf(kind, p + q)) == Distinct(RecordsOf(kind, p))
      && Distinct(RecordsOf(kind, Merged(p) + q)) == Distinct(Records(OfType(kind, p))) + [record]
  {
    var q := [[kind] + record];
    AllWellCut(kind, p);
    OneRecord(kind, record);
    assert RecordsOf(kind, q) == [record] by {
      AddedToType([], [kind] + record, kind);
      assert [] + q == q;
    }
    RecordsAppend(kind, p, q);
    RecordsAppend(kind, Merged(p), q);
    MergedRecords(p, kind);
    DistinctKnown(RecordsOf(kind, p), record);
    DistinctOneMore(Records(OfType(kind, p)), record);
  }

  /** A record that is lost when the type's data is joined, and makes a difference when it comes again. */
  lemma LostRecord(p: seq<Request>, kind: Byte) returns (record: Bytes)
    requires !SeparableType(kind, p)
    ensures record in RecordsOf(kind, p) && record !in Records(OfType(kind, p))
    ensures |Concat(Distinct(Records(OfType(kind, p)))) + record| != |Concat(Distinct(RecordsOf(kind, p)))|
  {
    var records := Distinct(RecordsOf(kind, p));
    var data := Concat(records);
    AllWellCut(kind, p);
    forall i | 0 <= i < |records| ensures WellCut(kind, records[i]) {
      assert records[i] in RecordsOf(kind, p);
    }
    ConcatLonger(records);
    assert OfType(kind, p)[1..] == data;
    if kind <= CONSOLIDATION && |data| % RecordSize(kind, 0) == 0 {
      record :| record in RecordsOf(kind, p) && |record| != RecordSize(kind, 0);
      ChunksOfSize(data, RecordSize(kind, 0));
      PartsOfSize(data, RecordSize(kind, 0), record);
    } else {
      record := records[0];
      assert Records(OfType(kind, p)) == [data];
      DistinctOne(data);
      assert Concat([data]) == data;
    }
  }

  lemma PartsOfSize(data: Bytes, size: nat, record: Bytes)
    requires IsRecordSize(size) && |data| % size == 0 && |record| % size != 0
    requires AllOfSize(Chunks(data, size), size)
    ensures record !in Chunks(data, size)
    ensures |Concat(Distinct(Chunks(data, size))) + record| != |data|
  {
    var parts := Distinct(Chunks(data, size));
    forall i | 0 <= i < |parts| ensures |parts[i]| == size {
      assert parts[i] in Chunks(data, size);
    }
    PartsPlus(parts, size, |record|);
    AddSize(0, size);
  }

  lemma {:induction false} PartsPlus(parts: seq<Bytes>, size: nat, more: nat)
    requires IsRecordSize(size) && AllOfSize(parts, size)
    ensures (|Concat(parts)| + more) % size == more % size
  {
    if parts != [] {
      PartsPlus(parts[1..], size, more);
      AddSize(|Concat(parts[1..])| + more, size);
    }
  }

  lemma DifferentType(a: seq<Request>, b: seq<Request>, kind: Byte)
    requires Distinct(Types(a)) == Distinct(Types(b)) && kind in Types(a)
    requires |Concat(Distinct(RecordsOf(kind, a)))| != |Concat(Distinct(RecordsOf(kind, b)))|
    ensures Merged(a) != Merged(b)
  {
    var i :| 0 <= i < |Distinct(Types(a))| && Distinct(Types(a))[i] == kind;
    assert |OfType(kind, a)| != |OfType(kind, b)|;
    assert Merged(a)[i] == OfType(kind, a) && Merged(b)[i] == OfType(kind, b);
  }

  lemma NothingMerged(p: seq<Request>)
    requires |p| > 1 && Types(p) == []
    ensures AfterMerge(p) == []
  {
    assert |Merged(p)| == |Distinct(Types(p))| == 0;
  }

  lemma EmptyAdded(p: seq<Request>, q: seq<Request>)
    requires q == [[]]
    ensures Types(p + q) == Types(p)
  {
    AddedToType(p, [], 0);
    assert p + q == p + [[]];
  }

  lemma NothingToMerge(p: seq<Request>, q: seq<Request>)
    requires |p| > 1 && Types(p) == [] && q == [[]]
    ensures AfterMerge(AfterMerge(p) + q) == q && AfterMerge(p + q) == []
  {
    EmptyAdded(p, q);
    NothingMerged(p + q);
    NothingMerged(p);
    assert AfterMerge(p) + q == q;
  }

  /** For any other requests there are some to follow with which merging early gives another result. */
  lemma MergeEarlyFails(p: seq<Request>) returns (q: seq<Request>)
    requires !MergesEarly(p)
    ensures AfterMerge(AfterMerge(p) + q) != AfterMerge(p + q)
  {
    if Types(p) == [] {
      q := [[]];
      NothingToMerge(p, q);
    } else {
      var kind: Byte :| !SeparableType(kind, p);
      q := InseparableFails(p, kind);
    }
  }

  lemma InseparableFails(p: seq<Request>, kind: Byte) returns (q: seq<Request>)
    requires |p| > 1 && Types(p) != [] && !SeparableType(kind, p)
    ensures AfterMerge(AfterMerge(p) + q) != AfterMerge(p + q)
  {
    if kind !in Types(p) {
      NoRecordsWithoutType(kind, p);
    }
    var record := LostRecord(p, kind);
    q := [[kind] + record];
    LostDiffers(p, kind, record);
    TypesAgain(p, kind, q);
    DifferentType(Merged(p) + q, p + q, kind);
  }

  lemma LostDiffers(p: seq<Request>, kind: Byte, record: Bytes)
    requires kind in Types(p) && record in RecordsOf(kind, p) && record !in Records(OfType(kind, p))
    requires |Concat(Distinct(Records(OfType(kind, p)))) + record| != |Concat(Distinct(RecordsOf(kind, p)))|
    ensures var q := [[kind] + record];
      |Concat(Distinct(RecordsOf(kind, Merged(p) + q)))| != |Concat(Distinct(RecordsOf(kind, p + q)))|
  {
    RecordAgain(p, kind, record);
    ConcatAppend(Distinct(Records(OfType(kind, p))), [record]);
    assert Concat([record]) == record;
  }

  lemma TypesAgain(p: seq<Request>, kind: Byte, q: seq<Request>)
    requires kind in Types(p)
    ensures Distinct(Types(Merged(p) + q)) == Distinct(Types(p + q)) && kind in Types(Merged(p) + q)
    ensures Merged(p) != []
  {
    EarlyTypes(p, q);
    TypesAppend(Merged(p), q);
    MergedKinds(p);
  }

  /** So merging early is safe, whatever follows, exactly for those. */
  lemma MergeEarlyIff(p: seq<Request>)
    ensures (forall q :: AfterMerge(AfterMerge(p) + q) == AfterMerge(p + q)) <==> MergesEarly(p)
  {
    if MergesEarly(p) {
      forall q ensures AfterMerge(AfterMerge(p) + q) == AfterMerge(p + q) {
        MergeEarly(p, q);
      }
    } else {
      var q := MergeEarlyFails(p);
    }
  }

  // Panics.

  ghost predicate NoneDivides(requests: seq<Request>) {
    forall i :: 0 <= i < |requests| ==> !DividesByZero(requests[i])
  }

  lemma {:induction false} UnknownHasRecord(kind: Byte, requests: seq<Request>)
    requires kind > CONSOLIDATION && kind in Types(requests) && NoneDivides(requests)
    ensures RecordsOf(kind, requests) != []
  {
    var front, last := requests[..|requests| - 1], requests[|requests| - 1];
    if kind in Types(front) {
      UnknownHasRecord(kind, front);
    } else {
      assert |last| > 1 && last[1..] != [];
    }
  }

  /** A merged request does not divide by zero. */
  lemma MergedDivides(requests: seq<Request>)
    requires NoneDivides(requests)
    ensures NoneDivides(Merged(requests))
  {
    forall i | 0 <= i < |Merged(requests)| ensures !DividesByZero(Merged(requests)[i]) {
      var kind := Distinct(Types(requests))[i];
      assert kind in Distinct(Types(requests));
      if kind > CONSOLIDATION {
        UnknownHasRecord(kind, requests);
        AllWellCut(kind, requests);
        var records := Distinct(RecordsOf(kind, requests));
        assert RecordsOf(kind, requests)[0] in records;
        assert records[0] in RecordsOf(kind, requests);
        assert Concat(records) == records[0] + Concat(records[1..]);
      }
    }
  }

  lemma PanicsAppend(a: seq<Request>, q: seq<Request>)
    requires NoneDivides(a)
    ensures MergePanics(a + q) <==> |a + q| > 1 && !NoneDivides(q)
  {
    forall j | 0 <= j < |q| ensures (a + q)[|a| + j] == q[j] {}
  }

  /** Merging early also panics exactly when merging late does. */
  lemma MergeEarlyPanics(p: seq<Request>, q: seq<Request>)
    requires MergesEarly(p) && !MergePanics(p)
    ensures MergePanics(AfterMerge(p) + q) <==> MergePanics(p + q)
  {
    if |p| > 1 {
      MergedDivides(p);
      EarlyTypes(p, q);
      PanicsAppend(p, q);
      PanicsAppend(Merged(p), q);
    }
  }

  // Two kinds of requests.

  /** Whole requests of known types stay so when merged, and it does not matter when or how often they are. */
  lemma WholeMerges(p: seq<Request>, q: seq<Request>)
    requires AllWhole(p)
    ensures AllWhole(AfterMerge(p)) && AfterMerge(AfterMerge(p)) == AfterMerge(p)
    ensures AfterMerge(AfterMerge(p) + q) == AfterMerge(p + q)
  {
    WholeSeparable(p);
    MergedWhole(p);
    HeadTypes(p);
    MergeIdempotent(p);
    MergeEarly(p, q);
  }

  lemma UnknownRecords(kind: Byte, a: Bytes, b: Bytes)
    requires kind > CONSOLIDATION && a != [] && b != []
    ensures RecordsOf(kind, [[kind] + a, [kind] + b]) == [a, b]
  {
    OneRecord(kind, a);
    OneRecord(kind, b);
    AddedToType([], [kind] + a, kind);
    AddedToType([[kind] + a], [kind] + b, kind);
    assert [] + [[kind] + a] == [[kind] + a] && [[kind] + a] + [[kind] + b] == [[kind] + a, [kind] + b];
    assert [a] + [b] == [a, b];
  }

  /** Of an unknown type, two different requests must not be merged early: some that follow make a difference. */
  lemma UnknownTypeMergesDifferently(kind: Byte, a: Bytes, b: Bytes) returns (q: seq<Request>)
    requires kind > CONSOLIDATION && a != [] && b != [] && a != b
    ensures var p := [[kind] + a, [kind] + b]; AfterMerge(AfterMerge(p) + q) != AfterMerge(p + q)
  {
    UnknownRecords(kind, a, b);
    TwoDistinct([a, b], a, b);
    NotMergedEarly(kind, [[kind] + a, [kind] + b]);
    q := MergeEarlyFails([[kind] + a, [kind] + b]);
  }

  lemma NotMergedEarly(kind: Byte, p: seq<Request>)
    requires |p| > 1 && kind > CONSOLIDATION && |Distinct(RecordsOf(kind, p))| > 1
    ensures !MergesEarly(p)
  {
    assert !SeparableType(kind, p);
  }

  lemma TwoDistinct<T(!new)>(s: seq<T>, a: T, b: T)
    requires a in s && b in s && a != b
    ensures |Distinct(s)| > 1
  {
    var i :| 0 <= i < |Distinct(s)| && Distinct(s)[i] == a;
    var j :| 0 <= j < |Distinct(s)| && Distinct(s)[j] == b;
    assert i != j;
  }
}
