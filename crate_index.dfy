/** The crate-index rules of crate-index.js: which index files are read,
    how a file becomes records, flattening, splitting records by whether
    they have dependencies, and setting aside records whose dependencies
    cannot be met. */
module CrateIndex {
  import opened Wrappers
  import opened Strings
  import opened Seqs

  /** One dependency of a crate version: the crate it names and the
      version requirement it places on that crate. */
  datatype Dep = Dep(name: string, req: string)

  /** One line of the index: a published version of a crate. */
  datatype Nugget = Nugget(name: string, vers: string, deps: seq<Dep>)

  datatype Classified = Classified(nodeps: seq<Nugget>, hasdeps: seq<Nugget>)

  datatype Pruned = Pruned(nodeps: seq<Nugget>, hasdeps: seq<Nugget>, broken: seq<Nugget>)

  /** The semantic-version check `semver.satisfies(version, requirement)`,
      a library the model does not open, is passed in as a relation. */
  type Satisfies = (string, string) -> bool

  // ---------------------------------------------------------------------
  // findFiles: which walked paths are index files.

  /** A path relative to the index root is kept when it is not inside the
      `.git` directory and is not a top-level file (it contains a path
      separator, `/` on POSIX). */
  predicate IsIndexFile(rel: string)
  {
    !StartsWith(rel, ".git/") && '/' in rel
  }

  /** The files `findFiles` reports, in the order the walk visits them. */
  function FindFiles(walked: seq<string>): (found: seq<string>)
    ensures forall i :: 0 <= i < |found| ==> found[i] in walked
    ensures forall i :: 0 <= i < |found| ==> !StartsWith(found[i], ".git/") && '/' in found[i]
    ensures forall i :: 0 <= i < |walked| && IsIndexFile(walked[i]) ==> walked[i] in found
  {
    FilterMembers(walked, IsIndexFile);
    Filter(walked, IsIndexFile)
  }

  /** The walker's `file` handler: a walk that visits nothing finds
      nothing, and each visited file is appended to what was found so far
      exactly when it is an index file, so `found` keeps the walk order. */
  lemma FindFilesWalkOrder(walked: seq<string>, next: string)
    ensures FindFiles([]) == []
    ensures FindFiles(walked + [next]) == FindFiles(walked) + (if IsIndexFile(next) then [next] else [])
  {
    FilterSnoc(walked, next, IsIndexFile);
  }

  /** Top-level files such as config.json and everything under .git are
      skipped; a directory merely starting with ".git" is not. */
  lemma IndexFileExamples()
    ensures !IsIndexFile("config.json")
    ensures !IsIndexFile(".git/HEAD")
    ensures IsIndexFile("to/ml/toml")
    ensures IsIndexFile(".github/x")
  {
    assert ".git/HEAD"[..5] == ".git/";
    assert ".github/x"[..5] != ".git/" by { assert ".github/x"[4] != ".git/"[4]; }
    assert "to/ml/toml"[..5] != ".git/" by { assert "to/ml/toml"[0] != ".git/"[0]; }
    assert "to/ml/toml"[2] == '/';
    assert ".github/x"[7] == '/';
  }

  // ---------------------------------------------------------------------
  // readFile: a descriptor file holds one JSON record per line.

  predicate NonEmpty(line: string)
  {
    line != ""
  }

  /** The non-empty lines of a file, in order. */
  function RecordLines(filedata: string): (lines: seq<string>)
    ensures forall i :: 0 <= i < |lines| ==> lines[i] in Split(filedata, '\n')
    ensures forall i :: 0 <= i < |lines| ==> lines[i] != "" && '\n' !in lines[i]
    ensures forall line :: line in Split(filedata, '\n') && line != "" ==> line in lines
  {
    FilterMembers(Split(filedata, '\n'), NonEmpty);
    Filter(Split(filedata, '\n'), NonEmpty)
  }

  /** Decode every line with `parse` (standing for `JSON.parse`); one line
      that does not decode fails the whole file, as the exception thrown
      by `JSON.parse` rejects the file's promise. */
  function ParseLines(lines: seq<string>, parse: string -> Option<Nugget>): (r: Option<seq<Nugget>>)
    ensures r.Some? <==> forall i :: 0 <= i < |lines| ==> parse(lines[i]).Some?
    ensures r.Some? ==> |r.value| == |lines| && forall i :: 0 <= i < |lines| ==> r.value[i] == parse(lines[i]).value
    decreases |lines|
  {
    if |lines| == 0 then Some([])
    else
      var rest := ParseLines(lines[1..], parse);
      assert forall i :: 1 <= i < |lines| ==> lines[i] == lines[1..][i - 1];
      if parse(lines[0]).None? || rest.None? then None
      else Some([parse(lines[0]).value] + rest.value)
  }

  /** Every kept line decodes iff every non-empty piece of the file does. */
  lemma RecordLinesDecode(filedata: string, parse: string -> Option<Nugget>)
    ensures (forall i :: 0 <= i < |RecordLines(filedata)| ==> parse(RecordLines(filedata)[i]).Some?) <==>
            (forall j :: 0 <= j < |Split(filedata, '\n')| && Split(filedata, '\n')[j] != "" ==>
                           parse(Split(filedata, '\n')[j]).Some?)
  {
    var pieces, lines := Split(filedata, '\n'), RecordLines(filedata);
    FilterMembers(pieces, NonEmpty);
    if forall i :: 0 <= i < |lines| ==> parse(lines[i]).Some? {
      forall j | 0 <= j < |pieces| && pieces[j] != "" ensures parse(pieces[j]).Some? {
        assert NonEmpty(pieces[j]);
        var i :| 0 <= i < |lines| && lines[i] == pieces[j];
      }
    }
    if forall j :: 0 <= j < |pieces| && pieces[j] != "" ==> parse(pieces[j]).Some? {
      forall i | 0 <= i < |lines| ensures parse(lines[i]).Some? {
        var j :| 0 <= j < |pieces| && pieces[j] == lines[i];
      }
    }
  }

  /** `readFile`: one record per non-empty line, in line order. The file
      reads iff every non-empty line of it decodes. */
  function ReadFile(filedata: string, parse: string -> Option<Nugget>): (r: Option<seq<Nugget>>)
    ensures r.Some? <==> forall j :: 0 <= j < |Split(filedata, '\n')| && Split(filedata, '\n')[j] != "" ==>
                           parse(Split(filedata, '\n')[j]).Some?
    ensures r.Some? ==> |r.value| == |RecordLines(filedata)|
                        && forall i :: 0 <= i < |r.value| ==> Some(r.value[i]) == parse(RecordLines(filedata)[i])
  {
    RecordLinesDecode(filedata, parse);
    ParseLines(RecordLines(filedata), parse)
  }

  /** Empty lines are exactly what is dropped: joining the kept lines and
      the dropped (empty) ones back in place gives the file again, and the
      file has one more line than it has line breaks. */
  lemma ReadFileLines(filedata: string)
    ensures Join(Split(filedata, '\n'), '\n') == filedata
    ensures |Split(filedata, '\n')| == CountChar(filedata, '\n') + 1
    ensures forall i :: 0 <= i < |Split(filedata, '\n')| && Split(filedata, '\n')[i] != "" ==>
              Split(filedata, '\n')[i] in RecordLines(filedata)
  {
    JoinSplit(filedata, '\n');
    SplitCount(filedata, '\n');
    FilterMembers(Split(filedata, '\n'), NonEmpty);
  }

  /** A file written as records joined by line breaks reads back as
      exactly those lines. */
  lemma ReadFileRoundTrip(lines: seq<string>)
    requires forall i :: 0 <= i < |lines| ==> lines[i] != "" && '\n' !in lines[i]
    ensures RecordLines(Join(lines, '\n')) == lines
  {
    if |lines| == 0 {
      assert Split("", '\n') == [""];
      return;
    }
    SplitJoin(lines, '\n');
    assert Split(Join(lines, '\n'), '\n') == lines;
    FilterAll(lines, NonEmpty);
  }

  /** A trailing line break adds only an empty line, which is dropped. */
  lemma ReadFileTrailingBreak(lines: seq<string>)
    requires forall i :: 0 <= i < |lines| ==> lines[i] != "" && '\n' !in lines[i]
    ensures RecordLines(Join(lines + [""], '\n')) == lines
  {
    var trailing := lines + [""];
    assert forall i :: 0 <= i < |trailing| ==> '\n' !in trailing[i] by {
      forall i | 0 <= i < |trailing| ensures '\n' !in trailing[i] {
        if i < |lines| { assert trailing[i] == lines[i]; }
      }
    }
    SplitJoin(trailing, '\n');
    assert Split(Join(trailing, '\n'), '\n') == trailing;
    FilterSnoc(lines, "", NonEmpty);
    FilterAll(lines, NonEmpty);
  }

  // ---------------------------------------------------------------------
  // loadCrates: per-file lists flattened in file order.

  /** `res.forEach(r => flat.push(...r))`. */
  method Flatten(res: seq<seq<Nugget>>) returns (flat: seq<Nugget>)
    ensures flat == Concat(res)
  {
    flat := [];
    for i := 0 to |res|
      invariant flat == Concat(res[..i])
    {
      assert res[..i + 1][..i] == res[..i];
      flat := flat + res[i];
    }
    assert res[..|res|] == res;
  }

  // ---------------------------------------------------------------------
  // classifyNuggets

  predicate HasNoDeps(n: Nugget)
  {
    |n.deps| == 0
  }

  predicate HasDeps(n: Nugget)
  {
    |n.deps| != 0
  }

  /** The split `classifyNuggets` computes. */
  function Classify(nuggets: seq<Nugget>): Classified
  {
    Classified(Filter(nuggets, HasNoDeps), Filter(nuggets, HasDeps))
  }

  method ClassifyNuggets(nuggets: seq<Nugget>) returns (result: Classified)
    ensures result == Classify(nuggets)
  {
    result := Classified([], []);
    for i := 0 to |nuggets|
      invariant result == Classify(nuggets[..i])
    {
      var nugget := nuggets[i];
      assert nuggets[..i + 1] == nuggets[..i] + [nugget];
      FilterSnoc(nuggets[..i], nugget, HasNoDeps);
      FilterSnoc(nuggets[..i], nugget, HasDeps);
      if |nugget.deps| == 0 {
        result := result.(nodeps := result.nodeps + [nugget]);
      } else {
        result := result.(hasdeps := result.hasdeps + [nugget]);
      }
    }
    assert nuggets[..|nuggets|] == nuggets;
  }

  /** Every record lands in exactly one list: in `nodeps` iff it has no
      dependencies, and the two lists hold the input between them. */
  lemma ClassifyPartition(nuggets: seq<Nugget>)
    ensures forall n :: n in Classify(nuggets).nodeps <==> n in nuggets && |n.deps| == 0
    ensures forall n :: n in Classify(nuggets).hasdeps <==> n in nuggets && |n.deps| != 0
    ensures multiset(Classify(nuggets).nodeps) + multiset(Classify(nuggets).hasdeps) == multiset(nuggets)
  {
    FilterPartition(nuggets, HasNoDeps, HasDeps);
    FilterMembers(nuggets, HasNoDeps);
    FilterMembers(nuggets, HasDeps);
    forall n ensures n in Classify(nuggets).nodeps <==> n in nuggets && |n.deps| == 0 {
      if n in nuggets && |n.deps| == 0 {
        var i :| 0 <= i < |nuggets| && nuggets[i] == n;
      }
    }
    forall n ensures n in Classify(nuggets).hasdeps <==> n in nuggets && |n.deps| != 0 {
      if n in nuggets && |n.deps| != 0 {
        var i :| 0 <= i < |nuggets| && nuggets[i] == n;
      }
    }
  }

  /** Classifying a concatenation classifies each part and keeps them in
      that order. */
  lemma ClassifyKeepsOrder(a: seq<Nugget>, b: seq<Nugget>)
    ensures Classify(a + b).nodeps == Classify(a).nodeps + Classify(b).nodeps
    ensures Classify(a + b).hasdeps == Classify(a).hasdeps + Classify(b).hasdeps
  {
    FilterConcat(a, b, HasNoDeps);
    FilterConcat(a, b, HasDeps);
  }

  // ---------------------------------------------------------------------
  // removeBrokenDeps

  /** The `vermap` table: crate name to the versions seen for it, in the
      order they were added. */
  type VerMap = map<string, seq<string>>

  function AddVersion(vm: VerMap, n: Nugget): VerMap
  {
    vm[n.name := (if n.name in vm then vm[n.name] else []) + [n.vers]]
  }

  /** The table after adding the records of `ns` in order. */
  function VersionTable(ns: seq<Nugget>): VerMap
    decreases |ns|
  {
    if |ns| == 0 then map[] else AddVersion(VersionTable(ns[..|ns| - 1]), ns[|ns| - 1])
  }

  /** The table holds a name iff some record has it, and under that name
      exactly the versions of the records with that name. */
  lemma {:induction false} VersionTableContents(ns: seq<Nugget>)
    ensures forall name :: name in VersionTable(ns) <==> exists i :: 0 <= i < |ns| && ns[i].name == name
    ensures forall name, v :: name in VersionTable(ns) ==>
              (v in VersionTable(ns)[name] <==> exists i :: 0 <= i < |ns| && ns[i].name == name && ns[i].vers == v)
    decreases |ns|
  {
    if |ns| > 0 {
      var init := ns[..|ns| - 1];
      var last := ns[|ns| - 1];
      VersionTableContents(init);
      forall name ensures name in VersionTable(ns) <==> exists i :: 0 <= i < |ns| && ns[i].name == name {
        if name in VersionTable(init) {
          var i :| 0 <= i < |init| && init[i].name == name;
          assert ns[i] == init[i];
        }
        if exists i :: 0 <= i < |ns| && ns[i].name == name {
          var i :| 0 <= i < |ns| && ns[i].name == name;
          if i < |init| { assert init[i] == ns[i]; }
        }
      }
      forall name, v | name in VersionTable(ns)
        ensures v in VersionTable(ns)[name] <==> exists i :: 0 <= i < |ns| && ns[i].name == name && ns[i].vers == v
      {
        if name == last.name {
          if v in VersionTable(ns)[name] && v != last.vers {
            assert name in VersionTable(init) && v in VersionTable(init)[name];
            var i :| 0 <= i < |init| && init[i].name == name && init[i].vers == v;
            assert ns[i] == init[i];
          }
          if exists i :: 0 <= i < |ns| && ns[i].name == name && ns[i].vers == v {
            var i :| 0 <= i < |ns| && ns[i].name == name && ns[i].vers == v;
            if i < |init| { assert init[i] == ns[i]; }
          }
        } else {
          if v in VersionTable(ns)[name] {
            var i :| 0 <= i < |init| && init[i].name == name && init[i].vers == v;
            assert ns[i] == init[i];
          }
          if exists i :: 0 <= i < |ns| && ns[i].name == name && ns[i].vers == v {
            var i :| 0 <= i < |ns| && ns[i].name == name && ns[i].vers == v;
            if i < |init| { assert init[i] == ns[i]; }
          }
        }
      }
    }
  }

  /** The two loops that fill `vermap`: first the records with
      dependencies, then those without. */
  method BuildVersionTable(hasdeps: seq<Nugget>, nodeps: seq<Nugget>) returns (vermap: VerMap)
    ensures vermap == VersionTable(hasdeps + nodeps)
  {
    vermap := map[];
    for i := 0 to |hasdeps|
      invariant vermap == VersionTable(hasdeps[..i])
    {
      var nugget := hasdeps[i];
      assert hasdeps[..i + 1][..i] == hasdeps[..i];
      assert VersionTable(hasdeps[..i + 1]) == AddVersion(vermap, nugget);
      assert [] + [nugget.vers] == [nugget.vers];
      if nugget.name !in vermap {
        vermap := vermap[nugget.name := [nugget.vers]];
      } else {
        vermap := vermap[nugget.name := vermap[nugget.name] + [nugget.vers]];
      }
    }
    assert hasdeps[..|hasdeps|] == hasdeps == hasdeps + nodeps[..0];
    for j := 0 to |nodeps|
      invariant vermap == VersionTable(hasdeps + nodeps[..j])
    {
      var nugget := nodeps[j];
      assert (hasdeps + nodeps[..j + 1])[..|hasdeps| + j] == hasdeps + nodeps[..j];
      assert VersionTable(hasdeps + nodeps[..j + 1]) == AddVersion(vermap, nugget);
      assert [] + [nugget.vers] == [nugget.vers];
      if nugget.name !in vermap {
        vermap := vermap[nugget.name := [nugget.vers]];
      } else {
        vermap := vermap[nugget.name := vermap[nugget.name] + [nugget.vers]];
      }
    }
    assert nodeps[..|nodeps|] == nodeps;
  }

  /** Some version recorded under the dependency's name meets its requirement. */
  predicate DepSatisfied(vm: VerMap, sat: Satisfies, d: Dep)
  {
    d.name in vm && exists k :: 0 <= k < |vm[d.name]| && sat(vm[d.name][k], d.req)
  }

  /** Every dependency of the record is satisfied. */
  predicate NuggetValid(vm: VerMap, sat: Satisfies, n: Nugget)
  {
    forall k :: 0 <= k < |n.deps| ==> DepSatisfied(vm, sat, n.deps[k])
  }

  function ValidUnder(vm: VerMap, sat: Satisfies): Nugget -> bool
  {
    n => NuggetValid(vm, sat, n)
  }

  function BrokenUnder(vm: VerMap, sat: Satisfies): Nugget -> bool
  {
    n => !NuggetValid(vm, sat, n)
  }

  /** The result `removeBrokenDeps` computes. */
  function RemoveBroken(nuggets: Classified, sat: Satisfies): Pruned
  {
    var vm := VersionTable(nuggets.hasdeps + nuggets.nodeps);
    Pruned(nuggets.nodeps, Filter(nuggets.hasdeps, ValidUnder(vm, sat)), Filter(nuggets.hasdeps, BrokenUnder(vm, sat)))
  }

  /** The innermost loop: does any version of the named crate satisfy the
      requirement? The flag only ever turns from false to true. */
  method CheckDep(vermap: VerMap, sat: Satisfies, dep: Dep) returns (satisfies: bool)
    ensures satisfies == DepSatisfied(vermap, sat, dep)
  {
    satisfies := false;
    if dep.name in vermap {
      var versions := vermap[dep.name];
      for k := 0 to |versions|
        invariant satisfies <==> exists j :: 0 <= j < k && sat(versions[j], dep.req)
      {
        if !satisfies && sat(versions[k], dep.req) {
          satisfies := true;
        }
      }
    }
  }

  /** The middle loop: one unsatisfied dependency clears `isValid`, and
      nothing sets it again. */
  method CheckNugget(vermap: VerMap, sat: Satisfies, nugget: Nugget) returns (isValid: bool)
    ensures isValid == NuggetValid(vermap, sat, nugget)
  {
    isValid := true;
    for k := 0 to |nugget.deps|
      invariant isValid <==> forall j :: 0 <= j < k ==> DepSatisfied(vermap, sat, nugget.deps[j])
    {
      var satisfies := CheckDep(vermap, sat, nugget.deps[k]);
      if !satisfies {
        isValid := false;
      }
    }
  }

  /** One more record through the outer loop of `removeBrokenDeps`. */
  lemma RemoveBrokenStep(vm: VerMap, sat: Satisfies, done: seq<Nugget>, n: Nugget)
    ensures Filter(done + [n], ValidUnder(vm, sat))
              == Filter(done, ValidUnder(vm, sat)) + (if NuggetValid(vm, sat, n) then [n] else [])
    ensures Filter(done + [n], BrokenUnder(vm, sat))
              == Filter(done, BrokenUnder(vm, sat)) + (if NuggetValid(vm, sat, n) then [] else [n])
  {
    FilterSnoc(done, n, ValidUnder(vm, sat));
    FilterSnoc(done, n, BrokenUnder(vm, sat));
  }

  /** `removeBrokenDeps`. */
  method RemoveBrokenDeps(nuggets: Classified, sat: Satisfies) returns (result: Pruned)
    ensures result == RemoveBroken(nuggets, sat)
  {
    var vermap := BuildVersionTable(nuggets.hasdeps, nuggets.nodeps);
    result := Pruned(nuggets.nodeps, [], []);
    var hasdeps := nuggets.hasdeps;
    for i := 0 to |hasdeps|
      invariant result.nodeps == nuggets.nodeps
      invariant result.hasdeps == Filter(hasdeps[..i], ValidUnder(vermap, sat))
      invariant result.broken == Filter(hasdeps[..i], BrokenUnder(vermap, sat))
    {
      var nugget := hasdeps[i];
      assert hasdeps[..i + 1] == hasdeps[..i] + [nugget];
      RemoveBrokenStep(vermap, sat, hasdeps[..i], nugget);
      var isValid := CheckNugget(vermap, sat, nugget);
      if isValid {
        result := result.(hasdeps := result.hasdeps + [nugget]);
      } else {
        result := result.(broken := result.broken + [nugget]);
      }
    }
    assert hasdeps[..|hasdeps|] == hasdeps;
  }

  /** A record can be installed from `all` when each of its dependencies is
      met by some record of that name among `all`. */
  predicate Installable(all: seq<Nugget>, sat: Satisfies, n: Nugget)
  {
    forall k :: 0 <= k < |n.deps| ==>
      exists i :: 0 <= i < |all| && all[i].name == n.deps[k].name && sat(all[i].vers, n.deps[k].req)
  }

  /** Checking against the name-to-versions table is checking against the
      records themselves. */
  lemma ValidIffInstallable(all: seq<Nugget>, sat: Satisfies, n: Nugget)
    ensures NuggetValid(VersionTable(all), sat, n) <==> Installable(all, sat, n)
  {
    var vm := VersionTable(all);
    VersionTableContents(all);
    forall k | 0 <= k < |n.deps|
      ensures DepSatisfied(vm, sat, n.deps[k]) <==>
              exists i :: 0 <= i < |all| && all[i].name == n.deps[k].name && sat(all[i].vers, n.deps[k].req)
    {
      var d := n.deps[k];
      if DepSatisfied(vm, sat, d) {
        var j :| 0 <= j < |vm[d.name]| && sat(vm[d.name][j], d.req);
        assert vm[d.name][j] in vm[d.name];
      }
      if exists i :: 0 <= i < |all| && all[i].name == d.name && sat(all[i].vers, d.req) {
        var i :| 0 <= i < |all| && all[i].name == d.name && sat(all[i].vers, d.req);
        assert all[i].vers in vm[d.name];
        var j :| 0 <= j < |vm[d.name]| && vm[d.name][j] == all[i].vers;
      }
    }
  }

  /** `nodeps` passes through; the kept and broken lists split the input
      `hasdeps` between them; a record is kept iff each of its dependencies
      is met by some record, with or without dependencies, of that name. */
  lemma RemoveBrokenSpec(nuggets: Classified, sat: Satisfies)
    ensures RemoveBroken(nuggets, sat).nodeps == nuggets.nodeps
    ensures multiset(RemoveBroken(nuggets, sat).hasdeps) + multiset(RemoveBroken(nuggets, sat).broken)
              == multiset(nuggets.hasdeps)
    ensures forall n :: n in RemoveBroken(nuggets, sat).hasdeps <==>
              n in nuggets.hasdeps && Installable(nuggets.hasdeps + nuggets.nodeps, sat, n)
    ensures forall n :: n in RemoveBroken(nuggets, sat).broken <==>
              n in nuggets.hasdeps && !Installable(nuggets.hasdeps + nuggets.nodeps, sat, n)
  {
    var all := nuggets.hasdeps + nuggets.nodeps;
    var vm := VersionTable(all);
    FilterPartition(nuggets.hasdeps, ValidUnder(vm, sat), BrokenUnder(vm, sat));
    FilterMembers(nuggets.hasdeps, ValidUnder(vm, sat));
    FilterMembers(nuggets.hasdeps, BrokenUnder(vm, sat));
    forall n ensures n in RemoveBroken(nuggets, sat).hasdeps <==> n in nuggets.hasdeps && Installable(all, sat, n) {
      ValidIffInstallable(all, sat, n);
      if n in nuggets.hasdeps {
        var i :| 0 <= i < |nuggets.hasdeps| && nuggets.hasdeps[i] == n;
      }
    }
    forall n ensures n in RemoveBroken(nuggets, sat).broken <==> n in nuggets.hasdeps && !Installable(all, sat, n) {
      ValidIffInstallable(all, sat, n);
      if n in nuggets.hasdeps {
        var i :| 0 <= i < |nuggets.hasdeps| && nuggets.hasdeps[i] == n;
      }
    }
  }

  /** A dependency on a crate that no record names breaks the record. */
  lemma UnknownDependencyBreaks(nuggets: Classified, sat: Satisfies, n: Nugget, k: nat)
    requires n in nuggets.hasdeps
    requires k < |n.deps|
    requires forall i :: 0 <= i < |nuggets.hasdeps| ==> nuggets.hasdeps[i].name != n.deps[k].name
    requires forall i :: 0 <= i < |nuggets.nodeps| ==> nuggets.nodeps[i].name != n.deps[k].name
    ensures n in RemoveBroken(nuggets, sat).broken
  {
    RemoveBrokenSpec(nuggets, sat);
    var all := nuggets.hasdeps + nuggets.nodeps;
    forall i | 0 <= i < |all| ensures all[i].name != n.deps[k].name {
      if i >= |nuggets.hasdeps| {
        assert all[i] == nuggets.nodeps[i - |nuggets.hasdeps|];
      }
    }
  }

  /** The records kept keep their input order: what is kept from an earlier
      stretch of `hasdeps` comes before what is kept from a later one. */
  lemma RemoveBrokenKeepsOrder(nodeps: seq<Nugget>, a: seq<Nugget>, b: seq<Nugget>, sat: Satisfies)
    ensures var all := VersionTable(a + b + nodeps);
            RemoveBroken(Classified(nodeps, a + b), sat).hasdeps
              == Filter(a, ValidUnder(all, sat)) + Filter(b, ValidUnder(all, sat))
    ensures var all := VersionTable(a + b + nodeps);
            RemoveBroken(Classified(nodeps, a + b), sat).broken
              == Filter(a, BrokenUnder(all, sat)) + Filter(b, BrokenUnder(all, sat))
  {
    var all := VersionTable(a + b + nodeps);
    FilterConcat(a, b, ValidUnder(all, sat));
    FilterConcat(a, b, BrokenUnder(all, sat));
  }

  // ---------------------------------------------------------------------
  // loadCrates after the index is on disk.

  /** All the per-file results, or `None` as soon as one of them failed:
      the behaviour of `Promise.all`. It succeeds iff every part does, and
      keeps the parts in their input order. */
  function AllRead<T>(rs: seq<Option<T>>): (r: Option<seq<T>>)
    ensures r.Some? <==> forall i :: 0 <= i < |rs| ==> rs[i].Some?
    ensures r.Some? ==> |r.value| == |rs| && forall i :: 0 <= i < |rs| ==> r.value[i] == rs[i].value
    decreases |rs|
  {
    if |rs| == 0 then Some([])
    else
      var init := rs[..|rs| - 1];
      var rest := AllRead(init);
      assert forall i :: 0 <= i < |init| ==> rs[i] == init[i];
      if rest.None? || rs[|rs| - 1].None? then None
      else Some(rest.value + [rs[|rs| - 1].value])
  }

  /** Every index file read, in file order. */
  function ReadAll(files: seq<string>, parse: string -> Option<Nugget>): Option<seq<seq<Nugget>>>
  {
    AllRead(seq(|files|, i requires 0 <= i < |files| => ReadFile(files[i], parse)))
  }

  /** The value `loadCrates` resolves to, given the contents of the index
      files in the order `findFiles` found them. */
  method LoadCrates(files: seq<string>, parse: string -> Option<Nugget>, sat: Satisfies) returns (r: Option<Pruned>)
    ensures ReadAll(files, parse).None? ==> r.None?
    ensures ReadAll(files, parse).Some? ==>
              r == Some(RemoveBroken(Classify(Concat(ReadAll(files, parse).value)), sat))
  {
    var res := ReadAll(files, parse);
    if res.None? {
      return None;
    }
    var flat := Flatten(res.value);
    var classified := ClassifyNuggets(flat);
    var withoutBrokenDeps := RemoveBrokenDeps(classified, sat);
    r := Some(withoutBrokenDeps);
  }
}
