/** Schedule construction of scheduler.js: the age filter of `filterOutOld`
    and the crate-to-task mapping of `createScheduleForCratesForToolchain`. */
module Scheduler {
  import opened Wrappers
  import opened Seqs
  import CraterUtil
  import CrateIndex

  /** One build request: a toolchain and a crate version. */
  datatype Task = Task(channel: CraterUtil.Channel, archiveDate: string, crateName: string, crateVers: string)

  /** A creation timestamp in milliseconds since the epoch, or the invalid
      date that `new Date` yields for text it cannot parse. */
  datatype CreatedAt = Instant(ms: int) | InvalidDate

  /** What fetching a crate version's metadata produced. */
  datatype Metadata = Metadata(createdAt: CreatedAt) | FetchFailed

  /** `new Date("2015-02-01")`: midnight UTC of 1 February 2015, in ms. */
  const EarlyDateMs: int := 1422748800000

  /** `date < earlyDate`; any comparison with an invalid date is false. */
  predicate IsOld(meta: Metadata)
  {
    meta.Metadata? && meta.createdAt.Instant? && meta.createdAt.ms < EarlyDateMs
  }

  /** The per-crate callback: an old crate becomes null, every other crate,
      including one whose metadata could not be fetched, stays. */
  function MarkOld(crate: CrateIndex.Nugget, meta: Metadata): Option<CrateIndex.Nugget>
  {
    if IsOld(meta) then None else Some(crate)
  }

  /** `crates.filter(function(crate) { return crate != null; })`: what
      remains is exactly the non-null entries. */
  function DropNulls(marked: seq<Option<CrateIndex.Nugget>>): (r: seq<CrateIndex.Nugget>)
    ensures |r| <= |marked|
    ensures forall i :: 0 <= i < |r| ==> Some(r[i]) in marked
    ensures forall j :: 0 <= j < |marked| && marked[j].Some? ==> marked[j].value in r
    decreases |marked|
  {
    if |marked| == 0 then []
    else
      var rest := DropNulls(marked[1..]);
      assert forall j :: 1 <= j < |marked| ==> marked[j] == marked[1..][j - 1];
      (if marked[0].Some? then [marked[0].value] else []) + rest
  }

  /** `filterOutOld`: the result of `mapLimit` is the marked list in input
      order, from which the nulls are removed. A crate is kept iff it is
      not dated before the cut-off. */
  function FilterOutOld(crates: seq<CrateIndex.Nugget>, fetch: CrateIndex.Nugget -> Metadata): (r: seq<CrateIndex.Nugget>)
    ensures |r| <= |crates|
    ensures forall i :: 0 <= i < |r| ==> r[i] in crates && !IsOld(fetch(r[i]))
    ensures forall j :: 0 <= j < |crates| && !IsOld(fetch(crates[j])) ==> crates[j] in r
  {
    var marked := seq(|crates|, i requires 0 <= i < |crates| => MarkOld(crates[i], fetch(crates[i])));
    var r := DropNulls(marked);
    assert forall i :: 0 <= i < |r| ==> r[i] in crates && !IsOld(fetch(r[i])) by {
      forall i | 0 <= i < |r| ensures r[i] in crates && !IsOld(fetch(r[i])) {
        var j :| 0 <= j < |marked| && marked[j] == Some(r[i]);
        assert crates[j] == r[i];
      }
    }
    assert forall j :: 0 <= j < |crates| && !IsOld(fetch(crates[j])) ==> marked[j] == Some(crates[j]);
    r
  }

  /** The keep rule as a selection predicate. */
  function Survives(fetch: CrateIndex.Nugget -> Metadata): CrateIndex.Nugget -> bool
  {
    c => !IsOld(fetch(c))
  }

  /** Marking and dropping nulls is the same as selecting, in order, the
      crates that are not old. */
  lemma {:induction false} FilterOutOldIsFilter(crates: seq<CrateIndex.Nugget>, fetch: CrateIndex.Nugget -> Metadata)
    ensures FilterOutOld(crates, fetch) == Filter(crates, Survives(fetch))
    decreases |crates|
  {
    if |crates| > 0 {
      var marked := seq(|crates|, i requires 0 <= i < |crates| => MarkOld(crates[i], fetch(crates[i])));
      var rest := seq(|crates| - 1, i requires 0 <= i < |crates| - 1 => MarkOld(crates[1..][i], fetch(crates[1..][i])));
      assert marked[1..] == rest;
      FilterOutOldIsFilter(crates[1..], fetch);
      assert Survives(fetch)(crates[0]) == !IsOld(fetch(crates[0]));
    }
  }

  /** A crate survives iff it was in the input and its metadata does not
      date it before 1 February 2015. */
  lemma FilterOutOldMembers(crates: seq<CrateIndex.Nugget>, fetch: CrateIndex.Nugget -> Metadata, c: CrateIndex.Nugget)
    ensures c in FilterOutOld(crates, fetch) <==> c in crates && !IsOld(fetch(c))
  {
    FilterOutOldIsFilter(crates, fetch);
    FilterMembers(crates, Survives(fetch));
    if c in FilterOutOld(crates, fetch) {
      var i :| 0 <= i < |FilterOutOld(crates, fetch)| && FilterOutOld(crates, fetch)[i] == c;
      assert Survives(fetch)(c);
    }
    if c in crates && !IsOld(fetch(c)) {
      var i :| 0 <= i < |crates| && crates[i] == c;
      assert Survives(fetch)(crates[i]);
    }
  }

  /** A crate whose metadata cannot be fetched, or whose date is invalid,
      is kept; so is one created exactly at the cut-off. */
  lemma UnknownAgeIsKept(crates: seq<CrateIndex.Nugget>, fetch: CrateIndex.Nugget -> Metadata, c: CrateIndex.Nugget)
    requires c in crates
    requires fetch(c) == FetchFailed || fetch(c) == Metadata(InvalidDate) || fetch(c) == Metadata(Instant(EarlyDateMs))
    ensures c in FilterOutOld(crates, fetch)
  {
    FilterOutOldMembers(crates, fetch, c);
  }

  /** Survivors keep their relative order: filtering a concatenation
      filters each part and keeps the parts in that order. */
  lemma FilterOutOldKeepsOrder(a: seq<CrateIndex.Nugget>, b: seq<CrateIndex.Nugget>, fetch: CrateIndex.Nugget -> Metadata)
    ensures FilterOutOld(a + b, fetch) == FilterOutOld(a, fetch) + FilterOutOld(b, fetch)
  {
    FilterOutOldIsFilter(a + b, fetch);
    FilterOutOldIsFilter(a, fetch);
    FilterOutOldIsFilter(b, fetch);
    FilterConcat(a, b, Survives(fetch));
  }

  /** The task record for one crate and toolchain. */
  function TaskFor(toolchain: CraterUtil.Toolchain, crate: CrateIndex.Nugget): Task
  {
    Task(toolchain.channel, toolchain.date, crate.name, crate.vers)
  }

  /** `createScheduleForCratesForToolchain`: one task per crate, in input
      order, each carrying the toolchain's channel and date. */
  method CreateScheduleForCratesForToolchain(crates: seq<CrateIndex.Nugget>, toolchain: CraterUtil.Toolchain)
    returns (tasks: seq<Task>)
    ensures |tasks| == |crates|
    ensures forall i :: 0 <= i < |tasks| ==>
              tasks[i].channel == toolchain.channel && tasks[i].archiveDate == toolchain.date
              && tasks[i].crateName == crates[i].name && tasks[i].crateVers == crates[i].vers
  {
    tasks := [];
    for i := 0 to |crates|
      invariant |tasks| == i
      invariant forall k :: 0 <= k < i ==> tasks[k] == TaskFor(toolchain, crates[k])
    {
      var crate := crates[i];
      var task := Task(toolchain.channel, toolchain.date, crate.name, crate.vers);
      tasks := tasks + [task];
    }
  }
}
