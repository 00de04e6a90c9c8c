/** Digestion of the Rust distribution index (rust-dist.js,
    `getAvailableToolchains`): which dated directories hold the channel
    marker files, collected per channel and sorted. */
module RustDist {
  import opened Wrappers
  import opened StringOrder

  /** The directory listing the index is made of: sub-directories `ds`
      and files `fs`. */
  datatype Listing = Listing(ds: seq<DirEntry>, fs: seq<FileEntry>)
  datatype DirEntry = DirEntry(name: string, children: Listing)
  datatype FileEntry = FileEntry(name: string)

  datatype Toolchains = Toolchains(nightly: seq<string>, beta: seq<string>, stable: seq<string>)

  /** `assert(index.ds.length == 1)` failing: Node's AssertionError. */
  datatype DistError = AssertionError

  const NightlyMarker := "channel-rust-nightly"
  const BetaMarker := "channel-rust-beta"
  const StableMarker := "channel-rust-stable"

  /** The names pushed for one directory: its name once per file in it
      called `marker`, files with any other name adding nothing. */
  function Marked(name: string, files: seq<FileEntry>, marker: string): seq<string>
    decreases |files|
  {
    if |files| == 0 then []
    else Marked(name, files[..|files| - 1], marker)
         + (if files[|files| - 1].name == marker then [name] else [])
  }

  /** The names pushed for `marker` over the directories, in walk order. */
  function Collect(dirs: seq<DirEntry>, marker: string): seq<string>
    decreases |dirs|
  {
    if |dirs| == 0 then []
    else Collect(dirs[..|dirs| - 1], marker)
         + Marked(dirs[|dirs| - 1].name, dirs[|dirs| - 1].children.fs, marker)
  }

  /** The result `getAvailableToolchains` computes. */
  function AvailableToolchains(index: Listing): Result<Toolchains, DistError>
  {
    if |index.ds| != 1 then Err(AssertionError)
    else
      var dirs := index.ds[0].children.ds;
      Ok(Toolchains(SortStrings(Collect(dirs, NightlyMarker)),
                    SortStrings(Collect(dirs, BetaMarker)),
                    SortStrings(Collect(dirs, StableMarker))))
  }

  /** `getAvailableToolchains`. The library sort is stated by its outcome:
      SortedUnique shows a sorted rearrangement is the only possible one. */
  method GetAvailableToolchains(index: Listing) returns (r: Result<Toolchains, DistError>)
    ensures r == AvailableToolchains(index)
  {
    if |index.ds| != 1 {
      return Err(AssertionError);
    }
    var dirs := index.ds[0].children.ds;
    var nightly: seq<string> := [];
    var beta: seq<string> := [];
    var stable: seq<string> := [];
    for i := 0 to |dirs|
      invariant nightly == Collect(dirs[..i], NightlyMarker)
      invariant beta == Collect(dirs[..i], BetaMarker)
      invariant stable == Collect(dirs[..i], StableMarker)
    {
      var dir := dirs[i];
      var name := dir.name;
      var files := dir.children.fs;
      assert dirs[..i + 1][..i] == dirs[..i];
      for j := 0 to |files|
        invariant nightly == Collect(dirs[..i], NightlyMarker) + Marked(name, files[..j], NightlyMarker)
        invariant beta == Collect(dirs[..i], BetaMarker) + Marked(name, files[..j], BetaMarker)
        invariant stable == Collect(dirs[..i], StableMarker) + Marked(name, files[..j], StableMarker)
      {
        var file := files[j];
        assert files[..j + 1][..j] == files[..j];
        if file.name == NightlyMarker {
          nightly := nightly + [name];
        } else if file.name == BetaMarker {
          beta := beta + [name];
        } else if file.name == StableMarker {
          stable := stable + [name];
        }
      }
      assert files[..|files|] == files;
    }
    assert dirs[..|dirs|] == dirs;
    nightly := SortStrings(nightly);
    beta := SortStrings(beta);
    stable := SortStrings(stable);
    r := Ok(Toolchains(nightly, beta, stable));
  }

  /** The number of files in `files` called `marker`. */
  function CountNamed(files: seq<FileEntry>, marker: string): nat
    decreases |files|
  {
    if |files| == 0 then 0
    else CountNamed(files[..|files| - 1], marker) + (if files[|files| - 1].name == marker then 1 else 0)
  }

  /** A directory contributes its name exactly once per marker file in it. */
  lemma {:induction false} MarkedCount(name: string, files: seq<FileEntry>, marker: string)
    ensures multiset(Marked(name, files, marker)) == multiset{}[name := CountNamed(files, marker)]
    decreases |files|
  {
    if |files| > 0 {
      MarkedCount(name, files[..|files| - 1], marker);
    }
  }

  /** The number of copies of `x` in the channel list: one per marker file
      in each directory called `x`. */
  function Occurrences(dirs: seq<DirEntry>, x: string, marker: string): nat
    decreases |dirs|
  {
    if |dirs| == 0 then 0
    else
      var d := dirs[|dirs| - 1];
      Occurrences(dirs[..|dirs| - 1], x, marker) + (if d.name == x then CountNamed(d.children.fs, marker) else 0)
  }

  lemma {:induction false} CollectCount(dirs: seq<DirEntry>, x: string, marker: string)
    ensures multiset(Collect(dirs, marker))[x] == Occurrences(dirs, x, marker)
    decreases |dirs|
  {
    if |dirs| > 0 {
      var d := dirs[|dirs| - 1];
      CollectCount(dirs[..|dirs| - 1], x, marker);
      MarkedCount(d.name, d.children.fs, marker);
    }
  }

  /** Each returned list is sorted, and holds each directory name exactly
      as many times as that directory has marker files for the channel. */
  lemma AvailableToolchainsSpec(index: Listing, x: string)
    requires |index.ds| == 1
    ensures var t := AvailableToolchains(index).value;
            var dirs := index.ds[0].children.ds;
            && Sorted(t.nightly) && Sorted(t.beta) && Sorted(t.stable)
            && multiset(t.nightly)[x] == Occurrences(dirs, x, NightlyMarker)
            && multiset(t.beta)[x] == Occurrences(dirs, x, BetaMarker)
            && multiset(t.stable)[x] == Occurrences(dirs, x, StableMarker)
  {
    var dirs := index.ds[0].children.ds;
    CollectCount(dirs, x, NightlyMarker);
    CollectCount(dirs, x, BetaMarker);
    CollectCount(dirs, x, StableMarker);
  }

  /** A name is listed for a channel iff some directory of that name holds
      the channel's marker file. */
  lemma {:induction false} CollectMembers(dirs: seq<DirEntry>, x: string, marker: string)
    ensures x in Collect(dirs, marker) <==>
              exists i, j :: 0 <= i < |dirs| && dirs[i].name == x && 0 <= j < |dirs[i].children.fs|
                             && dirs[i].children.fs[j].name == marker
    decreases |dirs|
  {
    CollectCount(dirs, x, marker);
    OccurrencesPositive(dirs, x, marker);
  }

  lemma {:induction false} CountNamedPositive(files: seq<FileEntry>, marker: string)
    ensures CountNamed(files, marker) > 0 <==> exists j :: 0 <= j < |files| && files[j].name == marker
    decreases |files|
  {
    if |files| > 0 {
      var init := files[..|files| - 1];
      CountNamedPositive(init, marker);
      if exists j :: 0 <= j < |init| && init[j].name == marker {
        var j :| 0 <= j < |init| && init[j].name == marker;
        assert files[j] == init[j];
      }
      if exists j :: 0 <= j < |files| && files[j].name == marker {
        var j :| 0 <= j < |files| && files[j].name == marker;
        if j < |init| { assert init[j] == files[j]; }
      }
    }
  }

  lemma {:induction false} OccurrencesPositive(dirs: seq<DirEntry>, x: string, marker: string)
    ensures Occurrences(dirs, x, marker) > 0 <==>
              exists i, j :: 0 <= i < |dirs| && dirs[i].name == x && 0 <= j < |dirs[i].children.fs|
                             && dirs[i].children.fs[j].name == marker
    decreases |dirs|
  {
    if |dirs| > 0 {
      var init := dirs[..|dirs| - 1];
      var d := dirs[|dirs| - 1];
      OccurrencesPositive(init, x, marker);
      CountNamedPositive(d.children.fs, marker);
      if exists i, j :: 0 <= i < |init| && init[i].name == x && 0 <= j < |init[i].children.fs|
                        && init[i].children.fs[j].name == marker {
        var i, j :| 0 <= i < |init| && init[i].name == x && 0 <= j < |init[i].children.fs|
                    && init[i].children.fs[j].name == marker;
        assert dirs[i] == init[i];
      }
      if d.name == x && CountNamed(d.children.fs, marker) > 0 {
        var j :| 0 <= j < |d.children.fs| && d.children.fs[j].name == marker;
        assert dirs[|dirs| - 1] == d;
      }
      if exists i, j :: 0 <= i < |dirs| && dirs[i].name == x && 0 <= j < |dirs[i].children.fs|
                        && dirs[i].children.fs[j].name == marker {
        var i, j :| 0 <= i < |dirs| && dirs[i].name == x && 0 <= j < |dirs[i].children.fs|
                    && dirs[i].children.fs[j].name == marker;
        if i < |init| { assert init[i] == dirs[i]; }
      }
    }
  }

  /** A fixture shaped like the test suite's: the 2015-02-20 directory has
      nightly and beta markers, and no stable one. */
  const Fixture := Listing([DirEntry("dist", Listing([
      DirEntry("2015-02-19", Listing([], [FileEntry(NightlyMarker), FileEntry("rustc-nightly.tar.gz")])),
      DirEntry("2015-02-20", Listing([], [FileEntry(NightlyMarker), FileEntry(BetaMarker)]))
    ], [FileEntry("index.html")]))], [])

  lemma FixtureToolchains()
    ensures AvailableToolchains(Fixture).Ok?
    ensures "2015-02-20" in AvailableToolchains(Fixture).value.nightly
    ensures "2015-02-20" in AvailableToolchains(Fixture).value.beta
    ensures "2015-02-20" !in AvailableToolchains(Fixture).value.stable
  {
    var dirs := Fixture.ds[0].children.ds;
    var x := "2015-02-20";
    assert dirs[1].name == x && dirs[1].children.fs[0].name == NightlyMarker;
    assert dirs[1].children.fs[1].name == BetaMarker;
    CollectMembers(dirs, x, NightlyMarker);
    CollectMembers(dirs, x, BetaMarker);
    forall i, j | 0 <= i < |dirs| && 0 <= j < |dirs[i].children.fs|
      ensures dirs[i].children.fs[j].name != StableMarker
    {
      var f := dirs[i].children.fs[j].name;
      assert f == NightlyMarker || f == BetaMarker || f == "rustc-nightly.tar.gz";
      assert StableMarker[13] == 's' && StableMarker[0] == 'c';
      assert f == NightlyMarker ==> f[13] == 'n';
      assert f == BetaMarker ==> f[13] == 'b';
      assert f == "rustc-nightly.tar.gz" ==> f[0] == 'r';
    }
    CollectMembers(dirs, x, StableMarker);
    SortStringsMembers(Collect(dirs, NightlyMarker), x);
    SortStringsMembers(Collect(dirs, BetaMarker), x);
    SortStringsMembers(Collect(dirs, StableMarker), x);
  }
}
