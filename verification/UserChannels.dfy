/** Merging the names of the keys a user has stored into the list of channels the server reports. */
module UserChannels {
  import opened Common

  /** The last message shown with a channel: a text, or the invitation to decrypt. */
  datatype Preview = ClickToDecrypt | Text(text: string)

  datatype Channel = Channel(
    hash: string, name: Option<string>, userLabel: Option<string>, userAdded: bool,
    messageCount: nat, lastActivityMs: int, lastSender: string, lastMessage: Preview, encrypted: bool)

  const USER := "user:"

  predicate Matches(ch: Channel, name: string) { ch.name == Some(name) || ch.hash == name || ch.hash == USER + name }

  function LabelOf(labels: map<string, string>, name: string): (l: string) {
    if name in labels then labels[name] else ""
  }

  /** The user's mark on a channel: an empty label leaves the label as it is. */
  function Mark(ch: Channel, tag: string): (r: Channel) {
    var c := ch.(userAdded := true);
    if tag != "" then c.(userLabel := Some(tag)) else c
  }

  /** A channel known only from the user's key, before its label. */
  function Blank(name: string): (r: Channel) {
    Channel(USER + name, Some(name), Some(""), true, 0, 0, "", ClickToDecrypt, true)
  }

  function FirstMatch(list: seq<Channel>, name: string): (i: Option<nat>)
    ensures i.Some? ==> i.value < |list| && Matches(list[i.value], name)
    ensures i.Some? ==> forall j | 0 <= j < i.value :: !Matches(list[j], name)
    ensures i.None? ==> forall j | 0 <= j < |list| :: !Matches(list[j], name)
  {
    if list == [] then None
    else
      var rest := FirstMatch(list[..|list| - 1], name);
      if rest.Some? then rest
      else if Matches(list[|list| - 1], name) then Some(|list| - 1) else None
  }

  function MergeOne(list: seq<Channel>, name: string, tag: string): (r: seq<Channel>) {
    var at := FirstMatch(list, name);
    if at.Some? then list[at.value := Mark(list[at.value], tag)] else list + [Mark(Blank(name), tag)]
  }

  function Merge(list: seq<Channel>, names: seq<string>, labels: map<string, string>): (r: seq<Channel>) {
    if names == [] then list
    else
      var last := names[|names| - 1];
      MergeOne(Merge(list, names[..|names| - 1], labels), last, LabelOf(labels, last))
  }

  method MergeUserChannels(list: seq<Channel>, names: seq<string>, labels: map<string, string>)
    returns (channels: seq<Channel>)
    ensures channels == Merge(list, names, labels)
  {
    channels := list;
    for i := 0 to |names|
      invariant channels == Merge(list, names[..i], labels)
    {
      assert names[..i + 1][..i] == names[..i];
      channels := MergeName(channels, names[i], if names[i] in labels then labels[names[i]] else "");
    }
    assert names[..|names|] == names;
  }

  /** One turn of the loop over the names. */
  method MergeName(list: seq<Channel>, name: string, tag: string) returns (channels: seq<Channel>)
    ensures channels == MergeOne(list, name, tag)
  {
    for j := 0 to |list|
      invariant forall n | 0 <= n < j :: !Matches(list[n], name)
    {
      var ch := list[j];
      if ch.name == Some(name) || ch.hash == name || ch.hash == USER + name {
        FirstMatchIs(list, name, j);
        ch := ch.(userAdded := true);
        if tag != "" { ch := ch.(userLabel := Some(tag)); }
        return list[j := ch];
      }
    }
    return list + [Channel(USER + name, Some(name), Some(tag), true, 0, 0, "", ClickToDecrypt, true)];
  }

  // ---- nothing is moved ----

  /** `b` starts with the channels of `a`, as far as matching can tell. */
  ghost predicate Extends(a: seq<Channel>, b: seq<Channel>) {
    |a| <= |b| && forall i | 0 <= i < |a| :: a[i].hash == b[i].hash && a[i].name == b[i].name
  }

  lemma FirstMatchIs(list: seq<Channel>, name: string, i: nat)
    requires i < |list| && Matches(list[i], name) && forall j | 0 <= j < i :: !Matches(list[j], name)
    ensures FirstMatch(list, name) == Some(i)
  {
    var at := FirstMatch(list, name);
    assert at.Some?;
  }

  /** A name keeps the channel it once found. */
  lemma FirstMatchStable(a: seq<Channel>, b: seq<Channel>, name: string)
    requires Extends(a, b)
    ensures FirstMatch(a, name).Some? ==> FirstMatch(b, name) == FirstMatch(a, name)
    ensures FirstMatch(a, name).None? && FirstMatch(b, name).Some? ==> FirstMatch(b, name).value >= |a|
  {
    var at := FirstMatch(a, name);
    if at.Some? {
      forall j | 0 <= j < at.value ensures !Matches(b[j], name) {
        assert !Matches(a[j], name);
      }
      FirstMatchIs(b, name, at.value);
    } else {
      assert forall j | 0 <= j < |a| :: Matches(a[j], name) == Matches(b[j], name);
    }
  }

  lemma MergeOneExtends(list: seq<Channel>, name: string, tag: string)
    ensures Extends(list, MergeOne(list, name, tag))
    ensures FirstMatch(MergeOne(list, name, tag), name)
            == Some(if FirstMatch(list, name).Some? then FirstMatch(list, name).value else |list|)
  {
    var r := MergeOne(list, name, tag);
    FirstMatchStable(list, r, name);
    if FirstMatch(list, name).None? { FirstMatchIs(r, name, |list|); }
  }

  // ---- the closed form ----

  /** Marks in order. */
  function MarkAll(ch: Channel, marks: seq<string>): (r: Channel) {
    if marks == [] then ch else Mark(MarkAll(ch, marks[..|marks| - 1]), marks[|marks| - 1])
  }

  /** The labels, in order, of the names whose first match in `list` is channel `i`. */
  function LabelsTo(list: seq<Channel>, names: seq<string>, labels: map<string, string>, i: nat): (r: seq<string>) {
    if names == [] then []
    else
      var last := names[|names| - 1];
      LabelsTo(list, names[..|names| - 1], labels, i)
      + if FirstMatch(list, last) == Some(i) then [LabelOf(labels, last)] else []
  }

  /** The channels that take marks: those given, then a blank one for each name that finds none in its turn. */
  function Seeds(list: seq<Channel>, names: seq<string>, labels: map<string, string>): (r: seq<Channel>) {
    if names == [] then list
    else
      var most, last := names[..|names| - 1], names[|names| - 1];
      Seeds(list, most, labels) + if FirstMatch(Merge(list, most, labels), last).None? then [Blank(last)] else []
  }

  lemma {:induction false} LabelsToStable(
      a: seq<Channel>, b: seq<Channel>, names: seq<string>, labels: map<string, string>, i: nat)
    requires Extends(a, b)
    requires forall n | n in names :: FirstMatch(a, n).Some?
    ensures LabelsTo(a, names, labels, i) == LabelsTo(b, names, labels, i)
  {
    if names != [] {
      LabelsToStable(a, b, names[..|names| - 1], labels, i);
      assert names[|names| - 1] in names;
      FirstMatchStable(a, b, names[|names| - 1]);
    }
  }

  lemma {:induction false} NoLabelsBeyond(list: seq<Channel>, names: seq<string>, labels: map<string, string>, i: nat)
    requires i >= |list|
    ensures LabelsTo(list, names, labels, i) == []
  {
    if names != [] { NoLabelsBeyond(list, names[..|names| - 1], labels, i); }
  }

  /** Every name finds a channel in the merged list. */
  lemma {:induction false} AllFound(list: seq<Channel>, names: seq<string>, labels: map<string, string>, n: string)
    requires n in names
    ensures FirstMatch(Merge(list, names, labels), n).Some?
  {
    var most, last := names[..|names| - 1], names[|names| - 1];
    assert n == last || n in most;
    if n in most { AllFound(list, most, labels, n); }
    FoundAfter(Merge(list, most, labels), last, LabelOf(labels, last), n);
  }

  lemma FoundAfter(before: seq<Channel>, last: string, tag: string, n: string)
    requires n == last || FirstMatch(before, n).Some?
    ensures FirstMatch(MergeOne(before, last, tag), n).Some?
  {
    MergeOneExtends(before, last, tag);
    FirstMatchStable(before, MergeOne(before, last, tag), n);
  }

  /** Each channel of the merged list is its seed, marked by exactly the names that find it there. */
  lemma {:induction false} MergeClosedForm(list: seq<Channel>, names: seq<string>, labels: map<string, string>, i: nat)
    ensures |Merge(list, names, labels)| == |Seeds(list, names, labels)|
    ensures i < |Merge(list, names, labels)|
            ==> Merge(list, names, labels)[i]
                == MarkAll(Seeds(list, names, labels)[i], LabelsTo(Merge(list, names, labels), names, labels, i))
  {
    if names == [] {
      assert LabelsTo(list, names, labels, i) == [];
    } else {
      var most, last := names[..|names| - 1], names[|names| - 1];
      var before, after := Merge(list, most, labels), Merge(list, names, labels);
      MergeClosedForm(list, most, labels, i);
      MergeOneExtends(before, last, LabelOf(labels, last));
      forall n | n in most ensures FirstMatch(before, n).Some? { AllFound(list, most, labels, n); }
      LabelsToStable(before, after, most, labels, i);
      if i >= |before| { NoLabelsBeyond(before, most, labels, i); }
      var marks := LabelsTo(after, most, labels, i);
      MarkLast(Seeds(list, names, labels), before, after, marks, last, LabelOf(labels, last), i);
    }
  }

  /** The last name's mark lands on its first match. */
  lemma MarkLast(
      seeds: seq<Channel>, before: seq<Channel>, after: seq<Channel>, marks: seq<string>, last: string, tag: string,
      i: nat)
    requires after == MergeOne(before, last, tag) && |seeds| == |after|
    requires FirstMatch(after, last)
             == Some(if FirstMatch(before, last).Some? then FirstMatch(before, last).value else |before|)
    requires i < |before| ==> before[i] == MarkAll(seeds[i], marks)
    requires i == |before| < |after| ==> seeds[i] == Blank(last) && marks == []
    ensures i < |after|
            ==> after[i] == MarkAll(seeds[i], marks + if FirstMatch(after, last) == Some(i) then [tag] else [])
  {
    if i < |after| {
      if FirstMatch(after, last) == Some(i) {
        assert (marks + [tag])[..|marks|] == marks;
      } else {
        assert marks + [] == marks;
      }
    }
  }

  // ---- what the merge promises ----

  /** The last label that is not empty, if any. */
  function LastLabel(was: Option<string>, marks: seq<string>): (l: Option<string>) {
    if marks == [] then was
    else if marks[|marks| - 1] != "" then Some(marks[|marks| - 1])
    else LastLabel(was, marks[..|marks| - 1])
  }

  lemma {:induction false} MarkAllIs(ch: Channel, marks: seq<string>)
    ensures MarkAll(ch, marks)
            == ch.(userAdded := ch.userAdded || marks != [], userLabel := LastLabel(ch.userLabel, marks))
  {
    if marks != [] { MarkAllIs(ch, marks[..|marks| - 1]); }
  }

  lemma LastLabelTwice(was: Option<string>, marks: seq<string>)
    ensures LastLabel(LastLabel(was, marks), marks) == LastLabel(was, marks)
  {
    LastLabelForgets(was, LastLabel(was, marks), marks);
  }

  lemma {:induction false} LastLabelForgets(x: Option<string>, y: Option<string>, marks: seq<string>)
    ensures LastLabel(x, marks) == LastLabel(y, marks) || (LastLabel(x, marks) == x && LastLabel(y, marks) == y)
  {
    if marks != [] { LastLabelForgets(x, y, marks[..|marks| - 1]); }
  }

  lemma {:induction false} SeedsPrefix(list: seq<Channel>, names: seq<string>, labels: map<string, string>)
    ensures |list| <= |Seeds(list, names, labels)| && Seeds(list, names, labels)[..|list|] == list
  {
    if names != [] { SeedsPrefix(list, names[..|names| - 1], labels); }
  }

  /** Channels already listed stay where they are and keep everything but the user's mark: they are
      marked when some stored name finds them, and bear the last non-empty label among those names. */
  lemma ExistingChannelsKept(list: seq<Channel>, names: seq<string>, labels: map<string, string>, i: nat)
    requires i < |list|
    ensures |list| <= |Merge(list, names, labels)|
    ensures var marks := LabelsTo(list, names, labels, i);
            Merge(list, names, labels)[i]
            == list[i].(userAdded := list[i].userAdded || marks != [], userLabel := LastLabel(list[i].userLabel, marks))
  {
    SeedsPrefix(list, names, labels);
    MergeClosedForm(list, names, labels, i);
    assert Seeds(list, names, labels)[i] == list[i];
    MergeExtends(list, names, labels);
    LabelsToPrefix(list, Merge(list, names, labels), names, labels, i);
    MarkAllIs(list[i], LabelsTo(list, names, labels, i));
  }

  lemma {:induction false} MergeExtends(list: seq<Channel>, names: seq<string>, labels: map<string, string>)
    ensures Extends(list, Merge(list, names, labels))
  {
    if names != [] {
      MergeExtends(list, names[..|names| - 1], labels);
      var last := names[|names| - 1];
      MergeOneExtends(Merge(list, names[..|names| - 1], labels), last, LabelOf(labels, last));
    }
  }

  lemma {:induction false} LabelsToPrefix(
      a: seq<Channel>, b: seq<Channel>, names: seq<string>, labels: map<string, string>, i: nat)
    requires Extends(a, b) && i < |a|
    ensures LabelsTo(a, names, labels, i) == LabelsTo(b, names, labels, i)
  {
    if names != [] {
      LabelsToPrefix(a, b, names[..|names| - 1], labels, i);
      FirstMatchStable(a, b, names[|names| - 1]);
    }
  }

  lemma {:induction false} LabelsToFound(
      list: seq<Channel>, names: seq<string>, labels: map<string, string>, n: string, i: nat)
    requires n in names && FirstMatch(list, n) == Some(i)
    ensures LabelsTo(list, names, labels, i) != []
  {
    var most, last := names[..|names| - 1], names[|names| - 1];
    if n != last {
      assert names == most + [last];
      LabelsToFound(list, most, labels, n, i);
    }
  }

  /** A name with a label gives it to the channel that it finds; a name without one leaves the label alone. */
  lemma LabelGiven(list: seq<Channel>, name: string, labels: map<string, string>, i: nat)
    requires FirstMatch(list, name) == Some(i)
    ensures Merge(list, [name], labels)
            == list[i := list[i].(userAdded := true,
                                  userLabel := if name in labels && labels[name] != "" then Some(labels[name])
                                               else list[i].userLabel)]
  {
    assert [name][..0] == [];
    assert Merge(list, [], labels) == list;
  }

  /** Every stored name is represented by a channel marked as the user's. */
  lemma EveryNameRepresented(list: seq<Channel>, names: seq<string>, labels: map<string, string>, n: string)
    requires n in names
    ensures exists i: nat | i < |Merge(list, names, labels)| ::
              var ch := Merge(list, names, labels)[i];
              (ch.name == Some(n) || ch.hash == n || ch.hash == "user:" + n) && ch.userAdded
  {
    var r := Merge(list, names, labels);
    AllFound(list, names, labels, n);
    var i := FirstMatch(r, n).value;
    MergeClosedForm(list, names, labels, i);
    LabelsToFound(r, names, labels, n, i);
    MarkAllIs(Seeds(list, names, labels)[i], LabelsTo(r, names, labels, i));
    assert Matches(r[i], n) && r[i].userAdded;
  }

  lemma {:induction false} SecondPassSeeds(list: seq<Channel>, names: seq<string>, labels: map<string, string>)
    requires forall n | n in names :: FirstMatch(list, n).Some?
    ensures Seeds(list, names, labels) == list
  {
    if names != [] {
      var most, last := names[..|names| - 1], names[|names| - 1];
      SecondPassSeeds(list, most, labels);
      MergeExtends(list, most, labels);
      assert last in names;
      FirstMatchStable(list, Merge(list, most, labels), last);
    }
  }

  /** Merging again changes nothing, however many names share a channel. */
  lemma MergeIdempotent(list: seq<Channel>, names: seq<string>, labels: map<string, string>)
    ensures Merge(Merge(list, names, labels), names, labels) == Merge(list, names, labels)
  {
    var r := Merge(list, names, labels);
    var again := Merge(r, names, labels);
    forall n | n in names ensures FirstMatch(r, n).Some? { AllFound(list, names, labels, n); }
    SecondPassSeeds(r, names, labels);
    MergeClosedForm(r, names, labels, 0);
    forall i: nat | i < |r| ensures again[i] == r[i] {
      var marks := LabelsTo(r, names, labels, i);
      var seed := Seeds(list, names, labels);
      MergeClosedForm(list, names, labels, i);
      ExistingChannelsKept(r, names, labels, i);
      MarkAllIs(seed[i], marks);
      LastLabelTwice(seed[i].userLabel, marks);
    }
  }

  // ---- growth ----

  /** The k-th name finds nothing in its turn: no listed channel, and no channel that an earlier such name
      brought in (which has that name, and its hash is that name behind "user:"). */
  predicate Unmatched(list: seq<Channel>, names: seq<string>, k: nat)
    requires k < |names|
  {
    FirstMatch(list, names[k]).None?
    && forall j | 0 <= j < k :: Unmatched(list, names, j) ==> !Matches(Blank(names[j]), names[k])
  }

  function CountUnmatched(list: seq<Channel>, names: seq<string>, k: nat): (n: nat)
    requires k <= |names|
  {
    if k == 0 then 0 else CountUnmatched(list, names, k - 1) + if Unmatched(list, names, k - 1) then 1 else 0
  }

  /** The channels brought in by the first k names are the blanks of the unmatched ones among them. */
  ghost predicate NewOnes(list: seq<Channel>, names: seq<string>, seeds: seq<Channel>, k: nat)
    requires k <= |names|
  {
    && |seeds| == |list| + CountUnmatched(list, names, k)
    && (forall i: nat | |list| <= i < |seeds| :: FromUnmatched(list, names, k, seeds[i]))
    && (forall j: nat | j < k && Unmatched(list, names, j) :: BroughtIn(list, seeds, names[j]))
  }

  ghost predicate FromUnmatched(list: seq<Channel>, names: seq<string>, k: nat, ch: Channel)
    requires k <= |names|
  {
    exists j: nat :: j < k && Unmatched(list, names, j) && ch == Blank(names[j])
  }

  ghost predicate BroughtIn(list: seq<Channel>, seeds: seq<Channel>, name: string) {
    exists i: nat :: |list| <= i < |seeds| && seeds[i] == Blank(name)
  }

  /** Matching looks only at what marks do not change. */
  lemma MergedLikeSeeds(list: seq<Channel>, names: seq<string>, labels: map<string, string>)
    ensures Extends(Seeds(list, names, labels), Merge(list, names, labels))
    ensures |Seeds(list, names, labels)| == |Merge(list, names, labels)|
  {
    var r, seeds := Merge(list, names, labels), Seeds(list, names, labels);
    MergeClosedForm(list, names, labels, 0);
    forall i: nat | i < |seeds| ensures seeds[i].hash == r[i].hash && seeds[i].name == r[i].name {
      MergeClosedForm(list, names, labels, i);
      MarkAllIs(seeds[i], LabelsTo(r, names, labels, i));
    }
  }

  lemma UnmatchedInSeeds(list: seq<Channel>, names: seq<string>, seeds: seq<Channel>, k: nat)
    requires k < |names| && |list| <= |seeds| && seeds[..|list|] == list && NewOnes(list, names, seeds, k)
    ensures FirstMatch(seeds, names[k]).None? <==> Unmatched(list, names, k)
  {
    assert Extends(list, seeds) by { assert forall i | 0 <= i < |list| :: seeds[i] == seeds[..|list|][i]; }
    FirstMatchStable(list, seeds, names[k]);
    if FirstMatch(list, names[k]).None? {
      if FirstMatch(seeds, names[k]).Some? {
        BlockedByNew(list, names, seeds, k, FirstMatch(seeds, names[k]).value);
      } else {
        forall j: nat | j < k && Unmatched(list, names, j) ensures !Matches(Blank(names[j]), names[k]) {
          assert BroughtIn(list, seeds, names[j]);
        }
      }
    }
  }

  lemma BlockedByNew(list: seq<Channel>, names: seq<string>, seeds: seq<Channel>, k: nat, i: nat)
    requires k < |names| && NewOnes(list, names, seeds, k) && |list| <= i < |seeds| && Matches(seeds[i], names[k])
    ensures !Unmatched(list, names, k)
  {
    assert FromUnmatched(list, names, k, seeds[i]);
  }

  lemma {:induction false} SeedsAreNew(list: seq<Channel>, names: seq<string>, labels: map<string, string>, k: nat)
    requires k <= |names|
    ensures NewOnes(list, names, Seeds(list, names[..k], labels), k)
  {
    if k > 0 {
      var most := names[..k - 1];
      assert names[..k][..k - 1] == most;
      SeedsAreNew(list, names, labels, k - 1);
      var was := Seeds(list, most, labels);
      SeedsPrefix(list, most, labels);
      UnmatchedInSeeds(list, names, was, k - 1);
      MergedLikeSeeds(list, most, labels);
      FirstMatchStable(was, Merge(list, most, labels), names[k - 1]);
      NewOnesStep(list, names, was, Seeds(list, names[..k], labels), k);
    }
  }

  lemma NewOnesStep(list: seq<Channel>, names: seq<string>, was: seq<Channel>, now: seq<Channel>, k: nat)
    requires 0 < k <= |names| && NewOnes(list, names, was, k - 1)
    requires now == was + if Unmatched(list, names, k - 1) then [Blank(names[k - 1])] else []
    ensures NewOnes(list, names, now, k)
  {
    forall j: nat | j < k && Unmatched(list, names, j) ensures BroughtIn(list, now, names[j]) {
      if j < k - 1 {
        assert BroughtIn(list, was, names[j]);
        var i: nat :| |list| <= i < |was| && was[i] == Blank(names[j]);
        assert now[i] == Blank(names[j]);
      } else {
        assert now[|was|] == Blank(names[j]);
      }
    }
    forall i: nat | |list| <= i < |now| ensures FromUnmatched(list, names, k, now[i]) {
      if i < |was| {
        assert FromUnmatched(list, names, k - 1, was[i]);
      }
    }
  }

  /** The list grows by one channel for each unmatched name, and by nothing else. */
  lemma GrowsByUnmatched(list: seq<Channel>, names: seq<string>, labels: map<string, string>)
    ensures |Merge(list, names, labels)| == |list| + CountUnmatched(list, names, |names|)
  {
    SeedsAreNew(list, names, labels, |names|);
    assert names[..|names|] == names;
    MergedLikeSeeds(list, names, labels);
  }

  /** The channel that the k-th name brings in stands after those that earlier names brought in. */
  lemma {:induction false} SeedAt(list: seq<Channel>, names: seq<string>, labels: map<string, string>, k: nat, n: nat)
    requires k < n <= |names| && Unmatched(list, names, k)
    ensures var seeds, at := Seeds(list, names[..n], labels), |list| + CountUnmatched(list, names, k);
            at < |seeds| && seeds[at] == Blank(names[k])
  {
    var most := names[..n - 1];
    assert names[..n][..n - 1] == most;
    SeedsAreNew(list, names, labels, n - 1);
    SeedsPrefix(list, most, labels);
    if k < n - 1 {
      SeedAt(list, names, labels, k, n - 1);
    } else {
      UnmatchedInSeeds(list, names, Seeds(list, most, labels), k);
      MergedLikeSeeds(list, most, labels);
      FirstMatchStable(Seeds(list, most, labels), Merge(list, most, labels), names[k]);
    }
  }

  /** Each unmatched name brings in, in the order of the names, one channel that is encrypted, empty, the
      user's own, hashed as "user:" and the name, and labelled with the last non-empty label among the
      names that find it. */
  lemma NewChannelIs(list: seq<Channel>, names: seq<string>, labels: map<string, string>, k: nat)
    requires k < |names| && Unmatched(list, names, k)
    ensures var r, at := Merge(list, names, labels), |list| + CountUnmatched(list, names, k);
            && at < |r|
            && r[at].hash == "user:" + names[k] && r[at].name == Some(names[k])
            && r[at].messageCount == 0 && r[at].lastActivityMs == 0 && r[at].lastSender == ""
            && r[at].lastMessage == ClickToDecrypt && r[at].encrypted && r[at].userAdded
            && r[at].userLabel == LastLabel(Some(""), LabelsTo(r, names, labels, at))
  {
    SeedAt(list, names, labels, k, |names|);
    assert names[..|names|] == names;
    var at := |list| + CountUnmatched(list, names, k);
    MergeClosedForm(list, names, labels, at);
    MarkAllIs(Blank(names[k]), LabelsTo(Merge(list, names, labels), names, labels, at));
  }

  /** Two stored names can share a channel in one order and not in the other. */
  lemma OrderMatters(name: string, labels: map<string, string>)
    ensures |Merge([], [name, USER + name], labels)| == 1
    ensures |Merge([], [USER + name, name], labels)| == 2
  {
    var a, b := [name, USER + name], [USER + name, name];
    GrowsByUnmatched([], a, labels);
    GrowsByUnmatched([], b, labels);
    assert CountUnmatched([], a, 2) == 1 by {
      assert Unmatched([], a, 0) && Matches(Blank(name), USER + name) && !Unmatched([], a, 1);
      assert CountUnmatched([], a, 1) == 1;
    }
    assert CountUnmatched([], b, 2) == 2 by {
      assert USER + name != name && USER + (USER + name) != name by { assert |USER + name| > |name|; }
      assert USER + (USER + name) != USER + name by { assert |USER + (USER + name)| > |USER + name|; }
      assert !Matches(Blank(USER + name), name) && Unmatched([], b, 0) && Unmatched([], b, 1);
      assert CountUnmatched([], b, 1) == 1;
    }
  }
}
