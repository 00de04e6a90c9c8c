/** Parsing of toolchain names such as "nightly-2015-03-01"
    (crater-util.js, `parseToolchain`). */
module CraterUtil {
  import opened Wrappers
  import opened Strings

  datatype Channel = Nightly | Beta | Stable

  /** The channel as it is spelled in toolchain names and reports. */
  function ChannelName(c: Channel): string
  {
    match c
    case Nightly => "nightly"
    case Beta => "beta"
    case Stable => "stable"
  }

  /** The channel name followed by a dash, as the parser searches for it. */
  function Prefix(c: Channel): (p: string)
    ensures p == ChannelName(c) + "-"
  {
    match c
    case Nightly => "nightly-"
    case Beta => "beta-"
    case Stable => "stable-"
  }

  /** The channels in the order the parser tries them. */
  const Channels: seq<Channel> := [Nightly, Beta, Stable]

  datatype Toolchain = Toolchain(channel: Channel, date: string)

  /** What the loop has decided after trying the channels `cs` in order:
      the last one whose prefix occurs anywhere in `s`, paired with `s`
      minus its first `|prefix|` characters. */
  function LastMatch(s: string, cs: seq<Channel>): Option<Toolchain>
    decreases |cs|
  {
    if |cs| == 0 then None
    else
      var c := cs[|cs| - 1];
      if Contains(s, Prefix(c)) then Some(Toolchain(c, s[|Prefix(c)|..]))
      else LastMatch(s, cs[..|cs| - 1])
  }

  /** Reference reading of the parser, written independently of the loop:
      the stable prefix takes precedence over beta, and beta over nightly;
      the date is the input without as many leading characters as the
      winning prefix is long, wherever that prefix was found. */
  function ParseSpec(name: Option<string>): Option<Toolchain>
  {
    match name
    case None => None
    case Some(s) =>
      if Contains(s, "stable-") then Some(Toolchain(Stable, s[7..]))
      else if Contains(s, "beta-") then Some(Toolchain(Beta, s[5..]))
      else if Contains(s, "nightly-") then Some(Toolchain(Nightly, s[8..]))
      else None
  }

  /** `parseToolchain`: `None` stands for JavaScript's `null` both in the
      argument and in the result. */
  method ParseToolchain(toolchainName: Option<string>) returns (r: Option<Toolchain>)
    ensures r == ParseSpec(toolchainName)
  {
    if toolchainName.None? {
      return None;
    }
    var s := toolchainName.value;
    var ret: Option<Toolchain> := None;
    for i := 0 to |Channels|
      invariant ret == LastMatch(s, Channels[..i])
    {
      var channel := Channels[i];
      var prefix := Prefix(channel);
      var ix := IndexOf(s, prefix);
      assert Channels[..i + 1][..i] == Channels[..i];
      if ix != -1 {
        ret := Some(Toolchain(channel, s[|prefix|..]));
      }
    }
    LastMatchAllChannels(s);
    r := ret;
  }

  /** Trying all three channels in order agrees with the reference reading. */
  lemma LastMatchAllChannels(s: string)
    ensures LastMatch(s, Channels[..|Channels|]) == ParseSpec(Some(s))
  {
    assert Channels[..|Channels|][..2] == [Nightly, Beta];
    assert [Nightly, Beta][..1] == [Nightly];
    assert [Nightly][..0] == [];
  }

  /** The result is defined exactly when some channel prefix occurs
      somewhere in the input. */
  lemma ParseDefinedIff(s: string)
    ensures ParseSpec(Some(s)).Some? <==> exists c: Channel :: Contains(s, Prefix(c))
  {
    if Contains(s, Prefix(Stable)) || Contains(s, Prefix(Beta)) || Contains(s, Prefix(Nightly)) {
    } else {
      forall c: Channel ensures !Contains(s, Prefix(c)) {
        match c {
          case Nightly =>
          case Beta =>
          case Stable =>
        }
      }
    }
  }

  /** The winning channel's prefix occurs in the input, no prefix of a
      channel tried later occurs, and the date drops `|prefix|` characters
      from the front of the input whatever position the prefix was at. */
  lemma ParseWinner(s: string, t: Toolchain)
    requires ParseSpec(Some(s)) == Some(t)
    ensures Contains(s, Prefix(t.channel))
    ensures |Prefix(t.channel)| <= |s| && t.date == s[|Prefix(t.channel)|..]
    ensures t.channel == Nightly ==> !Contains(s, Prefix(Beta)) && !Contains(s, Prefix(Stable))
    ensures t.channel == Beta ==> !Contains(s, Prefix(Stable))
  {
  }

  /** The position of a channel in the order the parser tries them. */
  function Rank(c: Channel): nat
  {
    match c
    case Nightly => 0
    case Beta => 1
    case Stable => 2
  }

  /** "C-D" gives channel C and date D, provided no channel tried after C
      has its prefix somewhere in "C-D". */
  lemma ParseWellFormed(c: Channel, d: string)
    requires forall c' :: Rank(c') > Rank(c) ==> !Contains(Prefix(c) + d, Prefix(c'))
    ensures ParseSpec(Some(Prefix(c) + d)) == Some(Toolchain(c, d))
  {
    ContainsOwnPrefix(Prefix(c), d);
    assert (Prefix(c) + d)[|Prefix(c)|..] == d;
    assert Rank(Beta) > Rank(Nightly) && Rank(Stable) > Rank(Beta);
  }

  /** The cases the test suite pins down. */
  lemma ParseRejectsBareName()
    ensures ParseSpec(None) == None
    ensures ParseSpec(Some("nightly")) == None
  {
    AbsentHeadNotContained("nightly", "beta-");
    AbsentHeadNotContained("nightly", "stable-");
  }

  lemma ParseDatedNames()
    ensures ParseSpec(Some("nightly-2015-03-01")) == Some(Toolchain(Nightly, "2015-03-01"))
    ensures ParseSpec(Some("beta-2015-03-01")) == Some(Toolchain(Beta, "2015-03-01"))
    ensures ParseSpec(Some("stable-2015-03-01")) == Some(Toolchain(Stable, "2015-03-01"))
  {
    var d := "2015-03-01";
    assert Prefix(Nightly) + d == "nightly-2015-03-01";
    assert Prefix(Beta) + d == "beta-2015-03-01";
    assert Prefix(Stable) + d == "stable-2015-03-01";
    AbsentHeadNotContained("nightly-2015-03-01", "beta-");
    AbsentHeadNotContained("nightly-2015-03-01", "stable-");
    AbsentHeadNotContained("beta-2015-03-01", "stable-");
    ParseWellFormed(Nightly, d);
    ParseWellFormed(Beta, d);
    ParseWellFormed(Stable, d);
  }

  /** Two quirks of the parser on names it was not written for: a prefix
      is found anywhere and the channel tried last wins, and the date is cut
      at the prefix's length from the front rather than after the prefix. */
  lemma ParseQuirks()
    ensures ParseSpec(Some("nightly-beta-x")) == Some(Toolchain(Beta, "ly-beta-x"))
    ensures ParseSpec(Some("x-nightly-2015")) == Some(Toolchain(Nightly, "y-2015"))
  {
    AbsentHeadNotContained("nightly-beta-x", "stable-");
    assert OccursAt("nightly-beta-x", "beta-", 8);
    AbsentHeadNotContained("x-nightly-2015", "beta-");
    AbsentHeadNotContained("x-nightly-2015", "stable-");
    assert OccursAt("x-nightly-2015", "nightly-", 2);
  }
}
