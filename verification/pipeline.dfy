/** The driver of one run: the required-argument check, one job per input
    record with the variant chosen once for the whole run, and the collector
    that writes results either as they arrive or in input order, and keeps
    every result for the offset file when offsets are requested.

    The worker pool is not modelled.  What the collector relies on is that,
    with at least one worker, every dispatched job yields exactly one outcome
    on the result channel, in an order the scheduler decides; that order is
    the parameter `order`, an arbitrary permutation of the job indices. */
module Pipeline {
  import opened Wrappers
  import opened Reduce
  import Fasta

  /** The line width the tool passes to the wrapping writer. */
  const LineWidth: nat := 80

  /* ---------------------------------------------------------------- arguments */

  datatype Args = Args(offsets: string, output: string, preserve: bool,
                       reduction: string, sequences: string, threads: int)

  /** The run stops with a usage message. */
  datatype UsageError = MissingRequiredPath

  /** A run needs a reduction file, a sequence file and an output path; the
      offsets path is optional and the thread count is passed on as given. */
  function CheckArgs(a: Args): (r: Result<Args, UsageError>)
    ensures r.Success? <==> a.reduction != [] && a.sequences != [] && a.output != []
    ensures r.Success? ==> r.value == a
  {
    if a.reduction == "" || a.sequences == "" || a.output == "" then Failure(MissingRequiredPath)
    else Success(a)
  }

  /* ----------------------------------------------------------------- dispatch */

  /** The jobs of a run and the input names, both in input order. */
  datatype Plan<!BV> = Plan(jobs: seq<Job<BV>>, names: seq<string>)

  /** The input names, in input order. */
  function Names(records: seq<Record>): (names: seq<string>)
    ensures |names| == |records|
    ensures forall i :: 0 <= i < |records| ==> names[i] == records[i].name
  {
    seq(|records|, i requires 0 <= i < |records| => records[i].name)
  }

  /** One job per record, wrapping that record; every job is of the offset
      variant when offsets are tracked and of the plain variant otherwise. */
  function Dispatch<BV>(records: seq<Record>, trackOffsets: bool,
                        reducer: string -> string,
                        reducerWithOffsets: string -> (string, BV),
                        marshal: BV -> Result<Bytes, MarshalError>): (p: Plan<BV>)
    ensures |p.jobs| == |records| && |p.names| == |records|
    ensures forall i :: 0 <= i < |records| ==>
              && p.jobs[i].rec == records[i]
              && (p.jobs[i].WithOffset? <==> trackOffsets)
    ensures p.names == Names(records)
    ensures forall i :: 0 <= i < |records| && p.jobs[i].NoOffset? ==>
              p.jobs[i].reducer == reducer
    ensures forall i :: 0 <= i < |records| && p.jobs[i].WithOffset? ==>
              p.jobs[i].reducerWithOffsets == reducerWithOffsets && p.jobs[i].marshal == marshal
  {
    var names := Names(records);
    if trackOffsets then
      Plan(seq(|records|, i requires 0 <= i < |records| => WithOffset(records[i], reducerWithOffsets, marshal)), names)
    else
      Plan(seq(|records|, i requires 0 <= i < |records| => NoOffset(records[i], reducer)), names)
  }

  /* ------------------------------------------------------------ arrival order */

  /** `order` lists every index below `n` exactly once. */
  predicate IsPermutation(order: seq<nat>, n: nat)
  {
    && |order| == n
    && (forall k :: 0 <= k < n ==> order[k] < n)
    && (forall k, l :: 0 <= k < l < n ==> order[k] != order[l])
    && (forall i :: 0 <= i < n ==> i in order)
  }

  /** `xs` in the order `order` picks. */
  function Permute<T>(xs: seq<T>, order: seq<nat>): (ys: seq<T>)
    requires IsPermutation(order, |xs|)
    ensures |ys| == |xs|
    ensures forall k :: 0 <= k < |ys| ==> ys[k] == xs[order[k]]
  {
    seq(|xs|, k requires 0 <= k < |xs| => xs[order[k]])
  }

  /** The order that remains once the last position, which picks `j`, is
      dropped and `j` is removed from the indices. */
  function DropLast(order: seq<nat>, j: nat): seq<nat>
    requires |order| > 0
  {
    seq(|order| - 1, k requires 0 <= k < |order| - 1 =>
          if order[k] < j then order[k] else if order[k] > j then order[k] - 1 else 0)
  }

  lemma DropLastIsPermutation(order: seq<nat>, n: nat)
    requires n > 0 && IsPermutation(order, n)
    ensures IsPermutation(DropLast(order, order[n - 1]), n - 1)
  {
    var j := order[n - 1];
    var order' := DropLast(order, j);
    forall k | 0 <= k < n - 1
      ensures order'[k] < n - 1
    {
      assert order[k] != order[n - 1];
    }
    forall k, l | 0 <= k < l < n - 1
      ensures order'[k] != order'[l]
    {
      assert order[k] != order[l];
      assert order[k] != j && order[l] != j;
    }
    forall i | 0 <= i < n - 1
      ensures i in order'
    {
      var i' := if i < j then i else i + 1;
      assert i' in order;
      var k :| 0 <= k < n && order[k] == i';
      assert k != n - 1;
      assert order'[k] == i;
    }
  }

  /** Dropping the last pick and the element it picked leaves the other
      picks in place. */
  lemma DropLastPicks<T>(xs: seq<T>, order: seq<nat>)
    requires |xs| > 0 && IsPermutation(order, |xs|)
    ensures var j := order[|xs| - 1];
            IsPermutation(DropLast(order, j), |xs| - 1)
            && Permute(xs[..j] + xs[j + 1..], DropLast(order, j)) == Permute(xs, order)[..|xs| - 1]
  {
    var n := |xs|;
    var j := order[n - 1];
    var xs' := xs[..j] + xs[j + 1..];
    var order' := DropLast(order, j);
    DropLastIsPermutation(order, n);
    var ys := Permute(xs, order);
    forall k | 0 <= k < n - 1
      ensures xs'[order'[k]] == ys[k]
    {
      assert order[k] != j;
    }
  }

  lemma MultisetRemove<T>(xs: seq<T>, j: nat)
    requires j < |xs|
    ensures multiset(xs) == multiset(xs[..j] + xs[j + 1..]) + multiset{xs[j]}
  {
    assert xs == xs[..j] + [xs[j]] + xs[j + 1..];
  }

  /** Reordering loses and duplicates nothing. */
  lemma {:induction false} PermuteMultiset<T>(xs: seq<T>, order: seq<nat>)
    requires IsPermutation(order, |xs|)
    ensures multiset(Permute(xs, order)) == multiset(xs)
    decreases |xs|
  {
    var n := |xs|;
    if n > 0 {
      var j := order[n - 1];
      var xs' := xs[..j] + xs[j + 1..];
      var order' := DropLast(order, j);
      DropLastPicks(xs, order);
      PermuteMultiset(xs', order');
      var ys := Permute(xs, order);
      assert ys == Permute(xs', order') + [xs[j]];
      calc {
        multiset(ys);
        multiset(Permute(xs', order')) + multiset{xs[j]};
        multiset(xs') + multiset{xs[j]};
        { MultisetRemove(xs, j); }
        multiset(xs);
      }
    }
  }

  /* ---------------------------------------------------------------- collector */

  /** One (name, sequence) pair handed to the FASTA writer. */
  datatype Entry = Entry(name: string, sequence: string)

  /** What the collector produces: the written entries, in writing order,
      and the records kept for the offset file, in arrival order. */
  datatype Collected = Collected(emitted: seq<Entry>, offsetRecords: seq<Record>)

  /** Names of the records that arrived. */
  function ArrivedNames(arrivals: seq<Record>): set<string>
  {
    set r | r in arrivals :: r.name
  }

  /** The entries of the records, in the same order. */
  function Stream(arrivals: seq<Record>): (es: seq<Entry>)
    ensures |es| == |arrivals|
    ensures forall k :: 0 <= k < |es| ==> es[k] == Entry(arrivals[k].name, arrivals[k].sequence)
  {
    seq(|arrivals|, k requires 0 <= k < |arrivals| => Entry(arrivals[k].name, arrivals[k].sequence))
  }

  /** Index of the last arrival carrying `name`, or -1 when none does. */
  function LastArrival(arrivals: seq<Record>, name: string): (k: int)
    ensures -1 <= k < |arrivals|
    ensures k >= 0 ==> arrivals[k].name == name
    ensures forall j :: k < j < |arrivals| ==> arrivals[j].name != name
  {
    if |arrivals| == 0 then -1
    else if arrivals[|arrivals| - 1].name == name then |arrivals| - 1
    else LastArrival(arrivals[..|arrivals| - 1], name)
  }

  /** The name-keyed map filled as results arrive; a later arrival with the
      same name overwrites the earlier one. */
  function Latest(arrivals: seq<Record>): (m: map<string, string>)
    ensures m.Keys == ArrivedNames(arrivals)
  {
    if |arrivals| == 0 then map[]
    else
      var front := arrivals[..|arrivals| - 1];
      var last := arrivals[|arrivals| - 1];
      assert arrivals == front + [last];
      Latest(front)[last.name := last.sequence]
  }

  /** The map holds, for each arrived name, the sequence of the last result
      that carried it. */
  lemma {:induction false} LatestIsLastArrival(arrivals: seq<Record>, name: string)
    ensures name in Latest(arrivals) <==> LastArrival(arrivals, name) >= 0
    ensures name in Latest(arrivals) ==>
              Latest(arrivals)[name] == arrivals[LastArrival(arrivals, name)].sequence
  {
    if |arrivals| > 0 {
      var front := arrivals[..|arrivals| - 1];
      LatestIsLastArrival(front, name);
      if arrivals[|arrivals| - 1].name != name {
        assert name in Latest(arrivals) <==> name in Latest(front);
        assert LastArrival(arrivals, name) == LastArrival(front, name);
      }
    }
  }

  /** The entries for `names`, each looked up in `m`. */
  function Reorder(names: seq<string>, m: map<string, string>): (es: seq<Entry>)
    requires forall i :: 0 <= i < |names| ==> names[i] in m
    ensures |es| == |names|
    ensures forall i :: 0 <= i < |es| ==> es[i] == Entry(names[i], m[names[i]])
  {
    seq(|names|, i requires 0 <= i < |names| => Entry(names[i], m[names[i]]))
  }

  /** The collector.  Without order preservation it writes every result as
      it arrives.  With it, it writes one entry per input name, in input
      order, each carrying the sequence of the last result with that name;
      every input name must have arrived, since the Go code dereferences the
      map entry of a missing one, which is nil.  With offsets requested it keeps every
      result, in arrival order, in either mode. */
  function Collect(arrivals: seq<Record>, names: seq<string>, preserve: bool, trackOffsets: bool): (c: Collected)
    requires preserve ==> forall i :: 0 <= i < |names| ==> names[i] in ArrivedNames(arrivals)
    ensures !preserve ==>
              && |c.emitted| == |arrivals|
              && forall k :: 0 <= k < |arrivals| ==>
                   c.emitted[k] == Entry(arrivals[k].name, arrivals[k].sequence)
    ensures preserve ==>
              && |c.emitted| == |names|
              && forall i :: 0 <= i < |names| ==>
                   && c.emitted[i].name == names[i]
                   && 0 <= LastArrival(arrivals, names[i])
                   && c.emitted[i].sequence == arrivals[LastArrival(arrivals, names[i])].sequence
    ensures c.offsetRecords == if trackOffsets then arrivals else []
  {
    var emitted :=
      if preserve then
        var m := Latest(arrivals);
        assert forall i :: 0 <= i < |names| ==>
                 && 0 <= LastArrival(arrivals, names[i])
                 && m[names[i]] == arrivals[LastArrival(arrivals, names[i])].sequence by {
          forall i | 0 <= i < |names|
            ensures 0 <= LastArrival(arrivals, names[i])
            ensures m[names[i]] == arrivals[LastArrival(arrivals, names[i])].sequence
          {
            LatestIsLastArrival(arrivals, names[i]);
          }
        }
        Reorder(names, m)
      else Stream(arrivals);
    Collected(emitted, if trackOffsets then arrivals else [])
  }

  /** The collector loop as written: one pass over the arrivals that writes
      or stores each result and keeps it for the offset file, then, when
      order is preserved, one pass over the input names. */
  method CollectResults(arrivals: seq<Record>, names: seq<string>, preserve: bool, trackOffsets: bool)
    returns (emitted: seq<Entry>, offsetRecords: seq<Record>)
    requires preserve ==> forall i :: 0 <= i < |names| ==> names[i] in ArrivedNames(arrivals)
    ensures Collected(emitted, offsetRecords) == Collect(arrivals, names, preserve, trackOffsets)
  {
    emitted := [];
    offsetRecords := [];
    var seqs: map<string, string> := map[];
    for k := 0 to |arrivals|
      invariant seqs == if preserve then Latest(arrivals[..k]) else map[]
      invariant preserve ==> emitted == []
      invariant !preserve ==> |emitted| == k
      invariant !preserve ==> forall j :: 0 <= j < k ==> emitted[j] == Entry(arrivals[j].name, arrivals[j].sequence)
      invariant offsetRecords == if trackOffsets then arrivals[..k] else []
    {
      var result := arrivals[k];
      assert arrivals[..k + 1] == arrivals[..k] + [result];
      if !preserve {
        emitted := emitted + [Entry(result.name, result.sequence)];
      } else {
        seqs := seqs[result.name := result.sequence];
      }
      if trackOffsets {
        offsetRecords := offsetRecords + [result];
      }
    }
    assert arrivals[..|arrivals|] == arrivals;
    if preserve {
      emitted := EmitInOrder(names, seqs);
    } else {
      assert emitted == Stream(arrivals);
    }
  }

  /** The second pass of the preserving collector: one entry per name, in
      the order of `names`, looked up in the map. */
  method EmitInOrder(names: seq<string>, seqs: map<string, string>) returns (emitted: seq<Entry>)
    requires forall i :: 0 <= i < |names| ==> names[i] in seqs
    ensures emitted == Reorder(names, seqs)
  {
    emitted := [];
    for i := 0 to |names|
      invariant |emitted| == i
      invariant forall j :: 0 <= j < i ==> emitted[j] == Entry(names[j], seqs[names[j]])
    {
      emitted := emitted + [Entry(names[i], seqs[names[i]])];
    }
  }

  /** The text one entry adds to the output file: the entry wrapped at the
      tool's line width. */
  function EntryText(e: Entry): string
  {
    Fasta.Wrapped(e.name, e.sequence, LineWidth)
  }

  /** The text written to the output file for a list of entries. */
  function Render(emitted: seq<Entry>): string
  {
    if |emitted| == 0 then [] else EntryText(emitted[0]) + Render(emitted[1..])
  }

  /** Writing entries one at a time, as the streaming collector does, gives
      the same file as writing them all at once. */
  lemma {:induction false} RenderAppend(a: seq<Entry>, b: seq<Entry>)
    ensures Render(a + b) == Render(a) + Render(b)
  {
    if |a| == 0 {
      assert a + b == b;
    } else {
      assert (a + b)[0] == a[0];
      assert (a + b)[1..] == a[1..] + b;
      RenderAppend(a[1..], b);
    }
  }

  /** The writes to the output file, one wrapped entry per call, in the
      order the collector hands the entries over. */
  method WriteEntries(emitted: seq<Entry>) returns (text: string)
    ensures text == Render(emitted)
  {
    text := [];
    for k := 0 to |emitted|
      invariant text == Render(emitted[..k])
    {
      var entry := Fasta.WriteWrapped(emitted[k].name, emitted[k].sequence, LineWidth);
      RenderAppend(emitted[..k], [emitted[k]]);
      assert emitted[..k + 1] == emitted[..k] + [emitted[k]];
      text := text + entry;
    }
    assert emitted[..|emitted|] == emitted;
  }

  /* ---------------------------------------------------------------- whole run */

  /** The run ends in a nil dereference: a worker forwarded a nil record
      (its job failed) and the collector read its name. */
  datatype Fault = NilResult

  /** Each job's outcome as its worker forwards it, in job order. */
  function Outcomes<BV>(plan: Plan<BV>): (os: seq<Option<Record>>)
    ensures |os| == |plan.jobs|
    ensures forall i :: 0 <= i < |os| ==>
              (os[i].None? <==> plan.jobs[i].WithOffset? && Execute(plan.jobs[i]).Failure?)
    ensures forall i :: 0 <= i < |os| && os[i].Some? ==> os[i].value.name == plan.jobs[i].rec.name
  {
    seq(|plan.jobs|, i requires 0 <= i < |plan.jobs| => Worker(plan.jobs[i]))
  }

  predicate AllPresent(os: seq<Option<Record>>)
  {
    forall k :: 0 <= k < |os| ==> os[k].Some?
  }

  function Unwrap(os: seq<Option<Record>>): (rs: seq<Record>)
    requires AllPresent(os)
    ensures |rs| == |os|
    ensures forall k :: 0 <= k < |rs| ==> rs[k] == os[k].value
  {
    seq(|os|, k requires 0 <= k < |os| && os[k].Some? => os[k].value)
  }

  /** A whole run over the input records, with the outcomes arriving in the
      order `order`: fails as soon as any outcome is nil, otherwise returns
      what the collector writes and keeps. */
  function Run<BV>(records: seq<Record>, trackOffsets: bool, preserve: bool,
                   reducer: string -> string,
                   reducerWithOffsets: string -> (string, BV),
                   marshal: BV -> Result<Bytes, MarshalError>,
                   order: seq<nat>): (r: Result<Collected, Fault>)
    requires IsPermutation(order, |records|)
    ensures r.Failure? ==> trackOffsets
    ensures r.Success? ==> |r.value.emitted| == |records|
    ensures r.Success? && preserve ==>
              forall i :: 0 <= i < |records| ==> r.value.emitted[i].name == records[i].name
    ensures r.Success? ==> |r.value.offsetRecords| == if trackOffsets then |records| else 0
  {
    var plan := Dispatch(records, trackOffsets, reducer, reducerWithOffsets, marshal);
    var arrived := Permute(Outcomes(plan), order);
    if !AllPresent(arrived) then Failure(NilResult)
    else
      var arrivals := Unwrap(arrived);
      ArrivalsCoverNames(plan, order, arrivals);
      Success(Collect(arrivals, plan.names, preserve, trackOffsets))
  }

  /** Every input name is among the arrived results, since each job's result
      keeps its record's name and each job's outcome arrives. */
  lemma ArrivalsCoverNames<BV>(plan: Plan<BV>, order: seq<nat>, arrivals: seq<Record>)
    requires |plan.names| == |plan.jobs|
    requires forall i :: 0 <= i < |plan.jobs| ==> plan.names[i] == plan.jobs[i].rec.name
    requires IsPermutation(order, |plan.jobs|)
    requires AllPresent(Permute(Outcomes(plan), order))
    requires arrivals == Unwrap(Permute(Outcomes(plan), order))
    ensures forall i :: 0 <= i < |plan.names| ==> plan.names[i] in ArrivedNames(arrivals)
  {
    forall i | 0 <= i < |plan.names|
      ensures plan.names[i] in ArrivedNames(arrivals)
    {
      assert i in order;
      var k :| 0 <= k < |order| && order[k] == i;
      assert arrivals[k] in arrivals;
    }
  }

  /** The sequence the run writes for one record. */
  function ReducedSequence<BV>(rec: Record, trackOffsets: bool,
                               reducer: string -> string,
                               reducerWithOffsets: string -> (string, BV)): string
  {
    if trackOffsets then reducerWithOffsets(rec.sequence).0 else reducer(rec.sequence)
  }

  /** The entries of the input records after reduction, in input order. */
  function ExpectedEntries<BV>(records: seq<Record>, trackOffsets: bool,
                               reducer: string -> string,
                               reducerWithOffsets: string -> (string, BV)): (es: seq<Entry>)
    ensures |es| == |records|
    ensures forall i :: 0 <= i < |es| ==>
              es[i] == Entry(records[i].name, ReducedSequence(records[i], trackOffsets, reducer, reducerWithOffsets))
  {
    seq(|records|, i requires 0 <= i < |records| =>
          Entry(records[i].name, ReducedSequence(records[i], trackOffsets, reducer, reducerWithOffsets)))
  }

  /** The records put in the offset file when every job succeeds. */
  function ExpectedOffsetRecords<BV>(records: seq<Record>,
                                     reducerWithOffsets: string -> (string, BV),
                                     marshal: BV -> Result<Bytes, MarshalError>): (rs: seq<Record>)
    requires forall i :: 0 <= i < |records| ==> marshal(reducerWithOffsets(records[i].sequence).1).Success?
    ensures |rs| == |records|
    ensures forall i :: 0 <= i < |rs| ==>
              var reduced := reducerWithOffsets(records[i].sequence);
              rs[i] == Record(records[i].name, Some(marshal(reduced.1).value), reduced.0)
  {
    seq(|records|, i requires 0 <= i < |records| =>
          var reduced := reducerWithOffsets(records[i].sequence);
          Record(records[i].name, Some(marshal(reduced.1).value), reduced.0))
  }

  /** A run fails exactly when offsets are tracked and some record's bit
      vector cannot be marshalled; a run without offsets never fails. */
  lemma RunFailsIffMarshalFails<BV>(records: seq<Record>, trackOffsets: bool, preserve: bool,
                                    reducer: string -> string,
                                    reducerWithOffsets: string -> (string, BV),
                                    marshal: BV -> Result<Bytes, MarshalError>,
                                    order: seq<nat>)
    requires IsPermutation(order, |records|)
    ensures Run(records, trackOffsets, preserve, reducer, reducerWithOffsets, marshal, order).Failure?
            <==> trackOffsets &&
                 exists i :: 0 <= i < |records| && marshal(reducerWithOffsets(records[i].sequence).1).Failure?
  {
    var plan := Dispatch(records, trackOffsets, reducer, reducerWithOffsets, marshal);
    var arrived := Permute(Outcomes(plan), order);
    if !AllPresent(arrived) {
      var k :| 0 <= k < |arrived| && arrived[k].None?;
      assert marshal(reducerWithOffsets(records[order[k]].sequence).1).Failure?;
    }
    if trackOffsets && exists i :: 0 <= i < |records| && marshal(reducerWithOffsets(records[i].sequence).1).Failure? {
      var i :| 0 <= i < |records| && marshal(reducerWithOffsets(records[i].sequence).1).Failure?;
      assert i in order;
      var k :| 0 <= k < |order| && order[k] == i;
      assert arrived[k].None?;
    }
  }

  /** The k-th arrival carries the name and reduced sequence of record
      `order[k]`. */
  predicate ArrivalsFor<BV>(records: seq<Record>, arrivals: seq<Record>, order: seq<nat>,
                            trackOffsets: bool, reducer: string -> string,
                            reducerWithOffsets: string -> (string, BV))
  {
    && |arrivals| == |records|
    && |order| == |records|
    && forall k :: 0 <= k < |arrivals| ==>
         && order[k] < |records|
         && arrivals[k].name == records[order[k]].name
         && arrivals[k].sequence == ReducedSequence(records[order[k]], trackOffsets, reducer, reducerWithOffsets)
  }

  /** In a run without failures every bit vector was marshalled, the k-th
      arrival is the result for record `order[k]`, every input name arrived,
      and the run's value is what the collector makes of those arrivals. */
  lemma RunArrivals<BV>(records: seq<Record>, trackOffsets: bool, preserve: bool,
                        reducer: string -> string,
                        reducerWithOffsets: string -> (string, BV),
                        marshal: BV -> Result<Bytes, MarshalError>,
                        order: seq<nat>) returns (arrivals: seq<Record>)
    requires IsPermutation(order, |records|)
    requires Run(records, trackOffsets, preserve, reducer, reducerWithOffsets, marshal, order).Success?
    ensures trackOffsets ==>
              forall i :: 0 <= i < |records| ==> marshal(reducerWithOffsets(records[i].sequence).1).Success?
    ensures ArrivalsFor(records, arrivals, order, trackOffsets, reducer, reducerWithOffsets)
    ensures !trackOffsets ==> forall k :: 0 <= k < |arrivals| ==> arrivals[k].offsets.None?
    ensures trackOffsets ==> arrivals == Permute(ExpectedOffsetRecords(records, reducerWithOffsets, marshal), order)
    ensures forall i :: 0 <= i < |records| ==> records[i].name in ArrivedNames(arrivals)
    ensures Run(records, trackOffsets, preserve, reducer, reducerWithOffsets, marshal, order).value
            == Collect(arrivals, Names(records), preserve, trackOffsets)
  {
    RunFailsIffMarshalFails(records, trackOffsets, preserve, reducer, reducerWithOffsets, marshal, order);
    var plan := Dispatch(records, trackOffsets, reducer, reducerWithOffsets, marshal);
    arrivals := Unwrap(Permute(Outcomes(plan), order));
    forall k | 0 <= k < |arrivals|
      ensures arrivals[k] == Execute(plan.jobs[order[k]]).value
    {
    }
    if trackOffsets {
      var expected := ExpectedOffsetRecords(records, reducerWithOffsets, marshal);
      assert arrivals == Permute(expected, order);
    }
    ArrivalsCoverNames(plan, order, arrivals);
  }

  /** With order preservation and distinct input names the run writes every
      record once, in input order, whatever order the results arrive in. */
  lemma RunPreservesInputOrder<BV>(records: seq<Record>, trackOffsets: bool,
                                   reducer: string -> string,
                                   reducerWithOffsets: string -> (string, BV),
                                   marshal: BV -> Result<Bytes, MarshalError>,
                                   order: seq<nat>)
    requires IsPermutation(order, |records|)
    requires forall i, j :: 0 <= i < j < |records| ==> records[i].name != records[j].name
    requires Run(records, trackOffsets, true, reducer, reducerWithOffsets, marshal, order).Success?
    ensures Run(records, trackOffsets, true, reducer, reducerWithOffsets, marshal, order).value.emitted
            == ExpectedEntries(records, trackOffsets, reducer, reducerWithOffsets)
  {
    var arrivals := RunArrivals(records, trackOffsets, true, reducer, reducerWithOffsets, marshal, order);
    PreserveRestoresOrder(records, arrivals, order, trackOffsets, reducer, reducerWithOffsets);
  }

  /** The collector's view of the same fact: when the k-th arrival is the
      result for input `order[k]` and input names are distinct, the
      preserving collector writes the inputs' entries in input order. */
  lemma PreserveRestoresOrder<BV>(records: seq<Record>, arrivals: seq<Record>, order: seq<nat>,
                                  trackOffsets: bool, reducer: string -> string,
                                  reducerWithOffsets: string -> (string, BV))
    requires IsPermutation(order, |records|)
    requires forall i, j :: 0 <= i < j < |records| ==> records[i].name != records[j].name
    requires ArrivalsFor(records, arrivals, order, trackOffsets, reducer, reducerWithOffsets)
    requires forall i :: 0 <= i < |records| ==> records[i].name in ArrivedNames(arrivals)
    ensures Collect(arrivals, Names(records), true, trackOffsets).emitted
            == ExpectedEntries(records, trackOffsets, reducer, reducerWithOffsets)
  {
    var names := Names(records);
    var emitted := Collect(arrivals, names, true, trackOffsets).emitted;
    var expected := ExpectedEntries(records, trackOffsets, reducer, reducerWithOffsets);
    forall i | 0 <= i < |records|
      ensures emitted[i] == expected[i]
    {
      var last := LastArrival(arrivals, names[i]);
      assert records[order[last]].name == records[i].name;
      assert order[last] == i;
    }
  }

  /** So in that mode the output does not depend on the arrival order. */
  lemma PreservedOutputIgnoresArrivalOrder<BV>(records: seq<Record>, trackOffsets: bool,
                                               reducer: string -> string,
                                               reducerWithOffsets: string -> (string, BV),
                                               marshal: BV -> Result<Bytes, MarshalError>,
                                               order1: seq<nat>, order2: seq<nat>)
    requires IsPermutation(order1, |records|) && IsPermutation(order2, |records|)
    requires forall i, j :: 0 <= i < j < |records| ==> records[i].name != records[j].name
    requires Run(records, trackOffsets, true, reducer, reducerWithOffsets, marshal, order1).Success?
    ensures Run(records, trackOffsets, true, reducer, reducerWithOffsets, marshal, order2).Success?
    ensures Run(records, trackOffsets, true, reducer, reducerWithOffsets, marshal, order1).value.emitted
            == Run(records, trackOffsets, true, reducer, reducerWithOffsets, marshal, order2).value.emitted
  {
    RunFailsIffMarshalFails(records, trackOffsets, true, reducer, reducerWithOffsets, marshal, order1);
    RunFailsIffMarshalFails(records, trackOffsets, true, reducer, reducerWithOffsets, marshal, order2);
    RunPreservesInputOrder(records, trackOffsets, reducer, reducerWithOffsets, marshal, order1);
    RunPreservesInputOrder(records, trackOffsets, reducer, reducerWithOffsets, marshal, order2);
  }

  /** Without order preservation the run writes the results in arrival
      order, and so writes every record exactly once. */
  lemma RunStreamsInArrivalOrder<BV>(records: seq<Record>, trackOffsets: bool,
                                     reducer: string -> string,
                                     reducerWithOffsets: string -> (string, BV),
                                     marshal: BV -> Result<Bytes, MarshalError>,
                                     order: seq<nat>)
    requires IsPermutation(order, |records|)
    requires Run(records, trackOffsets, false, reducer, reducerWithOffsets, marshal, order).Success?
    ensures var emitted := Run(records, trackOffsets, false, reducer, reducerWithOffsets, marshal, order).value.emitted;
            var expected := ExpectedEntries(records, trackOffsets, reducer, reducerWithOffsets);
            && emitted == Permute(expected, order)
            && multiset(emitted) == multiset(expected)
  {
    var arrivals := RunArrivals(records, trackOffsets, false, reducer, reducerWithOffsets, marshal, order);
    var expected := ExpectedEntries(records, trackOffsets, reducer, reducerWithOffsets);
    assert Collect(arrivals, Names(records), false, trackOffsets).emitted == Permute(expected, order);
    PermuteMultiset(expected, order);
  }

  /** With offsets requested the offset file receives every result exactly
      once, in arrival order, in either mode; without, it receives nothing. */
  lemma RunKeepsEveryOffsetRecord<BV>(records: seq<Record>, trackOffsets: bool, preserve: bool,
                                      reducer: string -> string,
                                      reducerWithOffsets: string -> (string, BV),
                                      marshal: BV -> Result<Bytes, MarshalError>,
                                      order: seq<nat>)
    requires IsPermutation(order, |records|)
    requires Run(records, trackOffsets, preserve, reducer, reducerWithOffsets, marshal, order).Success?
    ensures var kept := Run(records, trackOffsets, preserve, reducer, reducerWithOffsets, marshal, order).value.offsetRecords;
            && (!trackOffsets ==> kept == [])
            && (trackOffsets ==>
                  && (forall i :: 0 <= i < |records| ==> marshal(reducerWithOffsets(records[i].sequence).1).Success?)
                  && kept == Permute(ExpectedOffsetRecords(records, reducerWithOffsets, marshal), order)
                  && multiset(kept) == multiset(ExpectedOffsetRecords(records, reducerWithOffsets, marshal)))
  {
    var arrivals := RunArrivals(records, trackOffsets, preserve, reducer, reducerWithOffsets, marshal, order);
    if trackOffsets {
      PermuteMultiset(ExpectedOffsetRecords(records, reducerWithOffsets, marshal), order);
    }
  }

  /** With order preservation, input record `i` is written with the reduced
      sequence of the last arriving result that carries its name, whether or
      not other inputs share that name. */
  lemma DuplicateNamesTakeLastArrival<BV>(records: seq<Record>, trackOffsets: bool,
                                          reducer: string -> string,
                                          reducerWithOffsets: string -> (string, BV),
                                          marshal: BV -> Result<Bytes, MarshalError>,
                                          order: seq<nat>, i: nat)
    requires IsPermutation(order, |records|)
    requires Run(records, trackOffsets, true, reducer, reducerWithOffsets, marshal, order).Success?
    requires i < |records|
    ensures exists k ::
              && 0 <= k < |order|
              && records[order[k]].name == records[i].name
              && (forall j :: k < j < |order| ==> records[order[j]].name != records[i].name)
              && Run(records, trackOffsets, true, reducer, reducerWithOffsets, marshal, order).value.emitted[i]
                 == Entry(records[i].name, ReducedSequence(records[order[k]], trackOffsets, reducer, reducerWithOffsets))
  {
    var arrivals := RunArrivals(records, trackOffsets, true, reducer, reducerWithOffsets, marshal, order);
    PreserveTakesLastArrival(records, arrivals, order, trackOffsets, reducer, reducerWithOffsets, i);
  }

  /** The collector's view of the same fact: the entry for input `i` carries
      the reduced sequence of the last arrival with that input's name. */
  lemma PreserveTakesLastArrival<BV>(records: seq<Record>, arrivals: seq<Record>, order: seq<nat>,
                                     trackOffsets: bool, reducer: string -> string,
                                     reducerWithOffsets: string -> (string, BV), i: nat)
    requires ArrivalsFor(records, arrivals, order, trackOffsets, reducer, reducerWithOffsets)
    requires forall i :: 0 <= i < |records| ==> records[i].name in ArrivedNames(arrivals)
    requires i < |records|
    ensures exists k ::
              && 0 <= k < |order|
              && records[order[k]].name == records[i].name
              && (forall j :: k < j < |order| ==> records[order[j]].name != records[i].name)
              && Collect(arrivals, Names(records), true, trackOffsets).emitted[i]
                 == Entry(records[i].name, ReducedSequence(records[order[k]], trackOffsets, reducer, reducerWithOffsets))
  {
    var name := records[i].name;
    var k := LastArrival(arrivals, name);
    assert k >= 0;
    forall j | k < j < |order|
      ensures records[order[j]].name != name
    {
      assert arrivals[j].name == records[order[j]].name;
    }
  }
}
