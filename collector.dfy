/**
 The record collector of `main` in src/analyze_sam.py: for one pivot it walks
 the alignment records against datasets 0, 1, ..., N-1 in that order, keeps
 the records whose ground-truth length passes the threshold (and, in MEM mode,
 the noise correction), and groups them by read name into a table of
 `weight, hit list` entries.

 `Collect` is the specification (a left-to-right fold of `Step` over the
 records tagged with their parsed length and dataset index); `BuildReadMappings` is the source's
 nested loop, proved equal to it; the lemmas state what the table holds in
 terms of the records alone.
 */
module Collector {
  import opened ReadNames

  /**
   The weighting mode: exactly one of the two is selected. In MEM mode every
   length is corrected by the noise value, log base 4 of the reference length.
   */
  datatype Mode = Mems(noise: real) | HalfMems

  /** An alignment record, of which only the read name is used. */
  datatype Record = Record(name: string)

  /**
   A record as the collector sees it: the read name, the ground-truth length
   parsed from it (`None` when the name is malformed) and the index of the
   dataset it was aligned against.
   */
  datatype Alignment = Alignment(name: string, length: Option<int>, dataset: nat)

  /** A read mapping entry: the weight stored at first insertion and the hit list. */
  datatype Entry = Entry(weight: real, hits: seq<nat>)

  /**
   The read mapping table: the entries by read name, and the names in
   insertion order, which is the order a Python dictionary is iterated in.
   */
  datatype Table = Table(order: seq<string>, entries: map<string, Entry>)

  /** A read name whose fourth field is missing or is not an integer. */
  datatype Error = MalformedReadName(name: string)

  datatype Result<T> = Ok(value: T) | Err(error: Error)

  const EmptyTable := Table([], map[])

  /** Whether a record of ground-truth length `len` is used (lines 39-42). */
  predicate Accepted(mode: Mode, t: int, len: int)
  {
    len >= t && (mode.Mems? ==> len as real - mode.noise >= 0.0)
  }

  /** The weight stored when a read is first inserted (lines 44 and 54). */
  function StoredWeight(mode: Mode, len: int): real
  {
    if mode.Mems? then len as real - mode.noise else len as real
  }

  /** A new name gets an entry with weight `w` and an empty hit list (lines 43-44, 53-54). */
  function Created(tab: Table, name: string, w: real): Table
  {
    if name in tab.entries then tab
    else Table(tab.order + [name], tab.entries[name := Entry(w, [])])
  }

  /** Appends dataset `j` to the hit list of a known name (lines 46, 56). */
  function AppendHit(tab: Table, name: string, j: nat): Table
    requires name in tab.entries
  {
    Table(tab.order, tab.entries[name := tab.entries[name].(hits := tab.entries[name].hits + [j])])
  }

  /** Records dataset `j` for read `name`, as lines 43-46 and 53-56 do. */
  function Insert(tab: Table, name: string, w: real, j: nat): Table
  {
    AppendHit(Created(tab, name, w), name, j)
  }

  /**
   A new name gets weight `w` and the hit list `[j]` and goes to the end of
   the insertion order; a known name keeps its weight and gets `j` appended;
   every other entry is unchanged.
   */
  lemma InsertEffect(tab: Table, name: string, w: real, j: nat)
    ensures var r := Insert(tab, name, w, j);
      && name in r.entries
      && (name in tab.entries ==> r.order == tab.order && r.entries[name] == Entry(tab.entries[name].weight, tab.entries[name].hits + [j]))
      && (name !in tab.entries ==> r.order == tab.order + [name] && r.entries[name] == Entry(w, [j]))
      && (forall other :: other != name ==> (other in r.entries <==> other in tab.entries))
      && (forall other :: other != name && other in tab.entries ==> r.entries[other] == tab.entries[other])
  {
  }

  /** One iteration of the innermost loop (lines 37-56). */
  function Step(tab: Table, mode: Mode, t: int, a: Alignment): Result<Table>
  {
    match a.length
    case None => Err(MalformedReadName(a.name))
    case Some(len) =>
      if Accepted(mode, t, len) then Ok(Insert(tab, a.name, StoredWeight(mode, len), a.dataset))
      else Ok(tab)
  }

  /** The table built from the records `s`, processed in order; the first malformed name aborts. */
  function Collect(mode: Mode, t: int, s: seq<Alignment>): Result<Table>
    decreases |s|
  {
    if s == [] then Ok(EmptyTable)
    else
      match Collect(mode, t, s[..|s| - 1])
      case Err(e) => Err(e)
      case Ok(tab) => Step(tab, mode, t, s[|s| - 1])
  }

  /** The records of one dataset, tagged with the dataset's index. */
  function Tag(parse: string -> Option<int>, recs: seq<Record>, j: nat): (s: seq<Alignment>)
    ensures |s| == |recs|
  {
    seq(|recs|, k requires 0 <= k < |recs| => Alignment(recs[k].name, parse(recs[k].name), j))
  }

  /** The records of datasets `0 .. j-1`, in the order the source reads them. */
  function StreamTo(parse: string -> Option<int>, sams: seq<seq<Record>>, j: nat): seq<Alignment>
    requires j <= |sams|
    decreases j
  {
    if j == 0 then [] else StreamTo(parse, sams, j - 1) + Tag(parse, sams[j - 1], j - 1)
  }

  /** Every record of one pivot, dataset by dataset (lines 34-36). */
  function Stream(parse: string -> Option<int>, sams: seq<seq<Record>>): seq<Alignment>
  {
    StreamTo(parse, sams, |sams|)
  }

  /**
   The table is well formed for `n` datasets: the insertion order lists every
   name exactly once, and every hit list is non-empty and holds dataset indices
   below `n`.
   */
  ghost predicate TableValid(tab: Table, n: nat)
  {
    && (forall p, q :: 0 <= p < q < |tab.order| ==> tab.order[p] != tab.order[q])
    && (forall name :: name in tab.entries <==> name in tab.order)
    && (forall name :: name in tab.entries ==> |tab.entries[name].hits| > 0)
    && (forall name, k :: name in tab.entries && 0 <= k < |tab.entries[name].hits| ==> tab.entries[name].hits[k] < n)
  }

  /** In MEM mode every stored weight is non-negative. */
  ghost predicate WeightsValid(mode: Mode, tab: Table)
  {
    mode.Mems? ==> forall name :: name in tab.entries ==> tab.entries[name].weight >= 0.0
  }

  /** Whether `a` is a record of read `name` that the collector uses. */
  predicate AcceptedFor(mode: Mode, t: int, a: Alignment, name: string)
  {
    a.name == name &&
    match a.length
    case None => false
    case Some(len) => Accepted(mode, t, len)
  }

  /** The datasets of the used records of read `name`, in order, duplicates kept. */
  function Targets(mode: Mode, t: int, s: seq<Alignment>, name: string): seq<nat>
    decreases |s|
  {
    if s == [] then []
    else
      Targets(mode, t, s[..|s| - 1], name) +
      (if AcceptedFor(mode, t, s[|s| - 1], name) then [s[|s| - 1].dataset] else [])
  }

  /** `s[k]` is the earliest used record of read `name`. */
  ghost predicate FirstAccepted(mode: Mode, t: int, s: seq<Alignment>, name: string, k: nat)
  {
    k < |s| && AcceptedFor(mode, t, s[k], name) &&
    forall i :: 0 <= i < k ==> !AcceptedFor(mode, t, s[i], name)
  }

  /** Inserting keeps the table well formed. */
  lemma InsertValid(tab: Table, name: string, w: real, j: nat, n: nat)
    requires TableValid(tab, n) && j < n
    ensures TableValid(Insert(tab, name, w, j), n)
  {
    var r := Insert(tab, name, w, j);
    InsertEffect(tab, name, w, j);
    if name !in tab.entries {
      forall q | 0 <= q < |tab.order| ensures tab.order[q] != name {
        assert tab.order[q] in tab.order;
      }
      assert r.order == tab.order + [name];
    }
    forall other ensures other in r.entries <==> other in r.order {
      if other != name {
        assert other in r.order <==> other in tab.order;
      }
    }
  }

  /** The table of every successful collection is well formed (lines 43-46, 53-56). */
  lemma {:induction false} CollectValid(mode: Mode, t: int, s: seq<Alignment>, n: nat)
    requires forall i :: 0 <= i < |s| ==> s[i].dataset < n
    requires Collect(mode, t, s).Ok?
    ensures TableValid(Collect(mode, t, s).value, n)
    ensures WeightsValid(mode, Collect(mode, t, s).value)
    decreases |s|
  {
    if s != [] {
      var p := s[..|s| - 1];
      var a := s[|s| - 1];
      CollectValid(mode, t, p, n);
      var tab := Collect(mode, t, p).value;
      if Accepted(mode, t, a.length.value) {
        InsertValid(tab, a.name, StoredWeight(mode, a.length.value), a.dataset, n);
      }
    }
  }

  /** Collection fails exactly when some record's name is malformed. */
  lemma {:induction false} CollectFails(mode: Mode, t: int, s: seq<Alignment>)
    ensures Collect(mode, t, s).Err? <==> exists a :: a in s && a.length.None?
    decreases |s|
  {
    if s != [] {
      var p := s[..|s| - 1];
      CollectFails(mode, t, p);
      assert s == p + [s[|s| - 1]];
      if exists a :: a in p && a.length.None? {
        var a :| a in p && a.length.None?;
        assert a in s;
      }
    }
  }

  /** A failed collection stays failed, with the same error, whatever records follow. */
  lemma {:induction false} CollectErrorSticks(mode: Mode, t: int, p: seq<Alignment>, s: seq<Alignment>)
    requires p <= s
    requires Collect(mode, t, p).Err?
    ensures Collect(mode, t, s) == Collect(mode, t, p)
    decreases |s|
  {
    if |s| == |p| {
      assert s == p;
    } else {
      assert p <= s[..|s| - 1];
      CollectErrorSticks(mode, t, p, s[..|s| - 1]);
    }
  }

  /**
   A successful collection holds an entry for exactly the names that have a
   used record, and its hit list is the datasets of those records in order.
   */
  lemma {:induction false} CollectHits(mode: Mode, t: int, s: seq<Alignment>, name: string)
    requires Collect(mode, t, s).Ok?
    ensures name in Collect(mode, t, s).value.entries <==> Targets(mode, t, s, name) != []
    ensures name in Collect(mode, t, s).value.entries ==> Collect(mode, t, s).value.entries[name].hits == Targets(mode, t, s, name)
    decreases |s|
  {
    if s != [] {
      var p := s[..|s| - 1];
      var a := s[|s| - 1];
      CollectHits(mode, t, p, name);
      if Accepted(mode, t, a.length.value) {
        InsertEffect(Collect(mode, t, p).value, a.name, StoredWeight(mode, a.length.value), a.dataset);
      }
    }
  }

  /** A name has no used record exactly when its target list is empty. */
  lemma {:induction false} TargetsEmpty(mode: Mode, t: int, s: seq<Alignment>, name: string)
    ensures Targets(mode, t, s, name) == [] <==> forall i :: 0 <= i < |s| ==> !AcceptedFor(mode, t, s[i], name)
    decreases |s|
  {
    if s != [] {
      var p := s[..|s| - 1];
      TargetsEmpty(mode, t, p, name);
      assert forall i :: 0 <= i < |p| ==> p[i] == s[i];
    }
  }

  /** The stored weight of a read is the one computed from its earliest used record. */
  lemma {:induction false} CollectFirstWeight(mode: Mode, t: int, s: seq<Alignment>, name: string, k: nat)
    requires Collect(mode, t, s).Ok?
    requires FirstAccepted(mode, t, s, name, k)
    ensures name in Collect(mode, t, s).value.entries
    ensures Collect(mode, t, s).value.entries[name].weight == StoredWeight(mode, s[k].length.value)
    decreases |s|
  {
    var p := s[..|s| - 1];
    var a := s[|s| - 1];
    var tab := Collect(mode, t, p).value;
    if Accepted(mode, t, a.length.value) {
      InsertEffect(tab, a.name, StoredWeight(mode, a.length.value), a.dataset);
    }
    if k < |s| - 1 {
      assert FirstAccepted(mode, t, p, name, k);
      CollectFirstWeight(mode, t, p, name, k);
    } else {
      TargetsEmpty(mode, t, p, name);
      CollectHits(mode, t, p, name);
      assert name !in tab.entries;
    }
  }

  /**
   Once a read is in the table its weight never changes and its hit list only
   grows at the end, whatever records follow (lines 43-46 and 53-56).
   */
  lemma {:induction false} WeightFixedAtFirstInsert(mode: Mode, t: int, p: seq<Alignment>, s: seq<Alignment>, name: string)
    requires p <= s
    requires Collect(mode, t, s).Ok?
    ensures Collect(mode, t, p).Ok?
    ensures name in Collect(mode, t, p).value.entries ==>
              && name in Collect(mode, t, s).value.entries
              && Collect(mode, t, s).value.entries[name].weight == Collect(mode, t, p).value.entries[name].weight
              && Collect(mode, t, p).value.entries[name].hits <= Collect(mode, t, s).value.entries[name].hits
    decreases |s|
  {
    if Collect(mode, t, p).Err? {
      CollectErrorSticks(mode, t, p, s);
    } else if |s| == |p| {
      assert s == p;
    } else {
      var q := s[..|s| - 1];
      var a := s[|s| - 1];
      assert p <= q;
      WeightFixedAtFirstInsert(mode, t, p, q, name);
      if Accepted(mode, t, a.length.value) {
        InsertEffect(Collect(mode, t, q).value, a.name, StoredWeight(mode, a.length.value), a.dataset);
      }
    }
  }

  /**
   A record that parses but is not used — its length is below the threshold,
   or in MEM mode the corrected length is negative — has no effect at all: the
   table is the one built without it (lines 39-42).
   */
  lemma {:induction false} RejectedRecordIgnored(mode: Mode, t: int, p: seq<Alignment>, a: Alignment, q: seq<Alignment>)
    requires a.length.Some? && !Accepted(mode, t, a.length.value)
    ensures Collect(mode, t, p + [a] + q) == Collect(mode, t, p + q)
    decreases |q|
  {
    if q == [] {
      assert (p + [a])[..|p|] == p;
      assert p + [a] + q == p + [a] && p + q == p;
    } else {
      var q' := q[..|q| - 1];
      assert (p + [a] + q)[..|p + [a] + q| - 1] == p + [a] + q';
      assert (p + q)[..|p + q| - 1] == p + q';
      RejectedRecordIgnored(mode, t, p, a, q');
    }
  }

  /** The threshold is inclusive: length `t` passes it, length `t - 1` does not (line 39). */
  lemma ThresholdBoundary(mode: Mode, t: int)
    ensures !Accepted(mode, t, t - 1)
    ensures mode.HalfMems? ==> Accepted(mode, t, t)
    ensures mode.Mems? ==> (Accepted(mode, t, t) <==> t as real >= mode.noise)
  {
  }

  /**
   With noise 2 (a reference of length 16), a record of length 5 is stored
   with weight 3 and a record of length 1 is dropped, whatever the threshold.
   */
  lemma NoiseExample(t: int)
    ensures t <= 5 ==> Accepted(Mems(2.0), t, 5) && StoredWeight(Mems(2.0), 5) == 3.0
    ensures !Accepted(Mems(2.0), t, 1)
  {
  }

  /** The records of the datasets form a stream whose members are exactly those records, tagged. */
  lemma {:induction false} StreamMembers(parse: string -> Option<int>, sams: seq<seq<Record>>, j: nat, a: Alignment)
    requires j <= |sams|
    ensures a in StreamTo(parse, sams, j) <==> exists d, k :: 0 <= d < j && 0 <= k < |sams[d]| && a == Alignment(sams[d][k].name, parse(sams[d][k].name), d)
    decreases j
  {
    if j > 0 {
      StreamMembers(parse, sams, j - 1, a);
      var recs := sams[j - 1];
      var last := Tag(parse, recs, j - 1);
      assert StreamTo(parse, sams, j) == StreamTo(parse, sams, j - 1) + last;
      if a in last {
        var k :| 0 <= k < |last| && last[k] == a;
        assert last[k] == Alignment(recs[k].name, parse(recs[k].name), j - 1);
      }
      if exists k :: 0 <= k < |recs| && a == Alignment(recs[k].name, parse(recs[k].name), j - 1) {
        var k :| 0 <= k < |recs| && a == Alignment(recs[k].name, parse(recs[k].name), j - 1);
        assert last[k] == a;
      }
    }
  }

  /** Every record of the stream names a dataset below the number of datasets. */
  lemma StreamDatasets(parse: string -> Option<int>, sams: seq<seq<Record>>)
    ensures forall i :: 0 <= i < |Stream(parse, sams)| ==> Stream(parse, sams)[i].dataset < |sams|
  {
    forall i | 0 <= i < |Stream(parse, sams)| ensures Stream(parse, sams)[i].dataset < |sams| {
      StreamMembers(parse, sams, |sams|, Stream(parse, sams)[i]);
    }
  }

  lemma {:induction false} StreamToPrefix(parse: string -> Option<int>, sams: seq<seq<Record>>, j: nat, j': nat)
    requires j <= j' <= |sams|
    ensures StreamTo(parse, sams, j) <= StreamTo(parse, sams, j')
    decreases j'
  {
    if j < j' {
      StreamToPrefix(parse, sams, j, j' - 1);
    }
  }

  /** Taking one more record applies one `Step`. */
  lemma CollectSnoc(mode: Mode, t: int, s: seq<Alignment>, a: Alignment)
    ensures Collect(mode, t, s + [a]) == if Collect(mode, t, s).Err? then Collect(mode, t, s) else Step(Collect(mode, t, s).value, mode, t, a)
  {
    assert (s + [a])[..|s|] == s;
  }

  /** Tagging one more record of a dataset appends that record, tagged. */
  lemma TagNext(parse: string -> Option<int>, recs: seq<Record>, j: nat, k: nat)
    requires k < |recs|
    ensures Tag(parse, recs[..k + 1], j) == Tag(parse, recs[..k], j) + [Alignment(recs[k].name, parse(recs[k].name), j)]
  {
  }

  /** A failure part way through a dataset is the failure of the whole dataset. */
  lemma FailureAbortsDataset(parse: string -> Option<int>, mode: Mode, t: int, done: seq<Alignment>, recs: seq<Record>, j: nat, m: nat)
    requires m <= |recs|
    requires Collect(mode, t, done + Tag(parse, recs[..m], j)).Err?
    ensures Collect(mode, t, done + Tag(parse, recs, j)) == Collect(mode, t, done + Tag(parse, recs[..m], j))
  {
    var part := Tag(parse, recs[..m], j);
    var whole := Tag(parse, recs, j);
    assert part == whole[..m];
    assert (done + whole)[..|done| + m] == done + part;
    CollectErrorSticks(mode, t, done + part, done + whole);
  }

  /** A failure in the datasets before `j` is the failure of the whole pivot. */
  lemma FailureAbortsPivot(parse: string -> Option<int>, mode: Mode, t: int, sams: seq<seq<Record>>, j: nat)
    requires j <= |sams|
    requires Collect(mode, t, StreamTo(parse, sams, j)).Err?
    ensures Collect(mode, t, Stream(parse, sams)) == Collect(mode, t, StreamTo(parse, sams, j))
  {
    StreamToPrefix(parse, sams, j, |sams|);
    CollectErrorSticks(mode, t, StreamTo(parse, sams, j), Stream(parse, sams));
  }

  /**
   The body of the innermost loop (lines 37-56) for one record: parse failure
   aborts, a used record creates its entry if needed and appends its dataset.
   */
  method AddRecord(mode: Mode, t: int, tab: Table, a: Alignment) returns (r: Result<Table>)
    ensures r == Step(tab, mode, t, a)
  {
    if a.length.None? {
      return Err(MalformedReadName(a.name));
    }
    var queryLength := a.length.value;
    var order, entries := tab.order, tab.entries;
    if queryLength >= t {
      if mode.Mems? {
        if queryLength as real - mode.noise >= 0.0 {
          if a.name !in entries {
            entries := entries[a.name := Entry(queryLength as real - mode.noise, [])];
            order := order + [a.name];
          }
          entries := entries[a.name := entries[a.name].(hits := entries[a.name].hits + [a.dataset])];
        }
      } else {
        if a.name !in entries {
          entries := entries[a.name := Entry(queryLength as real, [])];
          order := order + [a.name];
        }
        entries := entries[a.name := entries[a.name].(hits := entries[a.name].hits + [a.dataset])];
      }
    }
    r := Ok(Table(order, entries));
  }

  /**
   The records of one dataset, read in input order (lines 36-56), added to the
   table `tab` that the records `done` produced.
   */
  method AddDataset(parse: string -> Option<int>, mode: Mode, t: int, tab: Table, recs: seq<Record>, j: nat, ghost done: seq<Alignment>)
    returns (r: Result<Table>)
    requires Collect(mode, t, done) == Ok(tab)
    ensures r == Collect(mode, t, done + Tag(parse, recs, j))
  {
    var cur := tab;
    var k := 0;
    assert done + Tag(parse, recs[..k], j) == done;
    while k < |recs|
      invariant 0 <= k <= |recs|
      invariant Collect(mode, t, done + Tag(parse, recs[..k], j)) == Ok(cur)
    {
      ghost var read := done + Tag(parse, recs[..k], j);
      var a := Alignment(recs[k].name, parse(recs[k].name), j);
      TagNext(parse, recs, j, k);
      assert done + Tag(parse, recs[..k + 1], j) == read + [a];
      CollectSnoc(mode, t, read, a);
      var next := AddRecord(mode, t, cur, a);
      if next.Err? {
        FailureAbortsDataset(parse, mode, t, done, recs, j, k + 1);
        return next;
      }
      cur := next.value;
      k := k + 1;
    }
    assert recs[..k] == recs;
    r := Ok(cur);
  }

  /**
   The read mappings of one pivot, built as the source builds its dictionary
   (lines 30-56): datasets in ascending order, records in input order.
   `parse` extracts the ground-truth length from a read name; the run passes
   `ReadNames.GroundTruthLength`.
   */
  method BuildReadMappings(parse: string -> Option<int>, mode: Mode, t: int, sams: seq<seq<Record>>) returns (r: Result<Table>)
    ensures r == Collect(mode, t, Stream(parse, sams))
  {
    var tab := EmptyTable;
    var j := 0;
    while j < |sams|
      invariant 0 <= j <= |sams|
      invariant Collect(mode, t, StreamTo(parse, sams, j)) == Ok(tab)
    {
      var next := AddDataset(parse, mode, t, tab, sams[j], j, StreamTo(parse, sams, j));
      if next.Err? {
        FailureAbortsPivot(parse, mode, t, sams, j + 1);
        return next;
      }
      tab := next.value;
      j := j + 1;
    }
    r := Ok(tab);
  }
}
