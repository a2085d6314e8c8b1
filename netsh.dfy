/**
  Reading the text the wireless command-line tool prints: the list of visible networks
  (`get_available_networks`) and the network the adapter is associated with
  (`get_current_connection`). Running the tool is outside the model: its outcome is given.
 */
module Netsh {
  import opened Wrappers
  import opened Text

  /** What running an external command gave: its captured standard output, or an exception. */
  datatype CommandResult = Ran(stdout: string) | Raised

  /** A line that names a network: it mentions `SSID`, does not mention `BSSID`, and has a colon. */
  predicate Qualifies(line: string)
  {
    Contains(line, "SSID") && !Contains(line, "BSSID") && ':' in line
  }

  /** The name on a qualifying line: the stripped text after its first colon. */
  function SsidOf(line: string): string
    requires ':' in line
  {
    Strip(AfterFirst(line, ':'))
  }

  /** The name on every qualifying line, in line order, duplicates and empty names included. */
  function Candidates(lines: seq<string>): seq<string>
  {
    if lines == [] then []
    else (if Qualifies(lines[0]) then [SsidOf(lines[0])] else []) + Candidates(lines[1..])
  }

  /** The candidates are exactly the names on the qualifying lines. */
  lemma {:induction false} CandidatesSpec(lines: seq<string>)
    ensures |Candidates(lines)| <= |lines|
    ensures forall i :: 0 <= i < |lines| && Qualifies(lines[i]) ==> SsidOf(lines[i]) in Candidates(lines)
    ensures forall x :: x in Candidates(lines) ==>
      exists i :: 0 <= i < |lines| && Qualifies(lines[i]) && SsidOf(lines[i]) == x
  {
    if lines != [] {
      CandidatesSpec(lines[1..]);
      assert forall i :: 1 <= i < |lines| ==> lines[i] == lines[1..][i - 1];
    }
  }

  lemma {:induction false} CandidatesAppend(a: seq<string>, b: seq<string>)
    ensures Candidates(a + b) == Candidates(a) + Candidates(b)
  {
    if a != [] {
      assert (a + b)[1..] == a[1..] + b;
      CandidatesAppend(a[1..], b);
    } else {
      assert a + b == b;
    }
  }

  /** No name occurs twice: each one is absent from the names before it. */
  predicate NoDup(xs: seq<string>)
  {
    xs == [] || (NoDup(xs[..|xs| - 1]) && xs[|xs| - 1] !in xs[..|xs| - 1])
  }

  /** No name occurs twice exactly when any two positions hold different names. */
  lemma {:induction false} NoDupSpec(xs: seq<string>)
    ensures NoDup(xs) <==> forall i, j :: 0 <= i < j < |xs| ==> xs[i] != xs[j]
  {
    if xs != [] {
      var init := xs[..|xs| - 1];
      var x := xs[|xs| - 1];
      NoDupSpec(init);
      assert forall i :: 0 <= i < |init| ==> init[i] == xs[i];
      if forall i, j :: 0 <= i < j < |xs| ==> xs[i] != xs[j] {
        forall i | 0 <= i < |init|
          ensures init[i] != x
        {
          assert xs[i] != xs[|xs| - 1];
        }
      }
    }
  }

  /** Appending a name that is not there keeps the names distinct. */
  lemma NoDupAppend(xs: seq<string>, x: string)
    requires NoDup(xs) && x !in xs
    ensures NoDup(xs + [x])
  {
    assert (xs + [x])[..|xs|] == xs;
  }

  /** The position of the first `x` in `xs`. */
  function FirstIndex(xs: seq<string>, x: string): nat
    requires x in xs
  {
    if xs[0] == x then 0 else FirstIndex(xs[1..], x) + 1
  }

  /** The first `x` is at a position that holds `x`, with no `x` before it, and it is the only
      such position. */
  lemma {:induction false} FirstIndexUnique(xs: seq<string>, x: string, i: nat)
    requires x in xs
    ensures var k := FirstIndex(xs, x); k < |xs| && xs[k] == x && x !in xs[..k]
    ensures i < |xs| && xs[i] == x && x !in xs[..i] ==> FirstIndex(xs, x) == i
  {
    if xs[0] != x {
      assert x in xs[1..];
      var j := if i > 0 then i - 1 else 0;
      FirstIndexUnique(xs[1..], x, j);
      var k := FirstIndex(xs[1..], x);
      assert xs[..k + 1] == [xs[0]] + xs[1..][..k];
      if i < |xs| && xs[i] == x && x !in xs[..i] {
        assert i > 0;
        assert xs[..i] == [xs[0]] + xs[1..][..j];
      }
    } else if 0 < i < |xs| {
      assert xs[..i][0] == x;
    }
  }

  /** The non-empty names of `xs`, each kept at its first occurrence only: the list the
      scan loop builds by appending a name unless it is empty or already present. */
  function FirstSeen(xs: seq<string>): seq<string>
  {
    if xs == [] then []
    else
      var seen := FirstSeen(xs[..|xs| - 1]);
      var x := xs[|xs| - 1];
      if x != "" && x !in seen then seen + [x] else seen
  }

  /** The first-seen list has no duplicates and no empty name, and holds exactly the non-empty
      names of `xs`. */
  lemma {:induction false} FirstSeenMembers(xs: seq<string>)
    ensures var r := FirstSeen(xs);
      NoDup(r) && "" !in r && forall x :: x in r <==> x in xs && x != ""
  {
    if xs != [] {
      var init := xs[..|xs| - 1];
      var x := xs[|xs| - 1];
      assert xs == init + [x];
      FirstSeenMembers(init);
      var seen := FirstSeen(init);
      if x != "" && x !in seen {
        var r := seen + [x];
        assert FirstSeen(xs) == r;
        assert r[..|seen|] == seen;
      }
    }
  }

  /** Appending a name does not move the first occurrence of a name already present. */
  lemma FirstIndexExtend(xs: seq<string>, x: string, y: string)
    requires y in xs
    ensures y in xs + [x] && FirstIndex(xs + [x], y) == FirstIndex(xs, y)
  {
    var k := FirstIndex(xs, y);
    FirstIndexUnique(xs, y, k);
    assert (xs + [x])[..k] == xs[..k];
    FirstIndexUnique(xs + [x], y, k);
  }

  /** A name appended to a list without it first occurs at the end. */
  lemma FirstIndexLast(xs: seq<string>, x: string)
    requires x !in xs
    ensures x in xs + [x] && FirstIndex(xs + [x], x) == |xs|
  {
    assert (xs + [x])[..|xs|] == xs;
    FirstIndexUnique(xs + [x], x, |xs|);
  }

  /** The names of `r` occur in `xs`, and their first occurrences there are in the order of `r`. */
  ghost predicate InFirstOrder(r: seq<string>, xs: seq<string>)
  {
    forall i, j :: 0 <= i < j < |r| ==>
      r[i] in xs && r[j] in xs && FirstIndex(xs, r[i]) < FirstIndex(xs, r[j])
  }

  /** Appending to `xs` keeps `r` in first-occurrence order, and so does appending to both a
      name that `xs` lacks. */
  lemma FirstOrderStep(r: seq<string>, xs: seq<string>, x: string)
    requires InFirstOrder(r, xs) && forall y :: y in r ==> y in xs
    ensures InFirstOrder(r, xs + [x])
    ensures x !in xs ==> InFirstOrder(r + [x], xs + [x])
  {
    forall i, j | 0 <= i < j < |r|
      ensures r[i] in xs + [x] && r[j] in xs + [x] &&
        FirstIndex(xs + [x], r[i]) < FirstIndex(xs + [x], r[j])
    {
      FirstIndexExtend(xs, x, r[i]);
      FirstIndexExtend(xs, x, r[j]);
    }
    if x !in xs {
      var r' := r + [x];
      FirstIndexLast(xs, x);
      forall i, j | 0 <= i < j < |r'|
        ensures r'[i] in xs + [x] && r'[j] in xs + [x] &&
          FirstIndex(xs + [x], r'[i]) < FirstIndex(xs + [x], r'[j])
      {
        assert r'[i] == r[i] && r[i] in r;
        FirstIndexExtend(xs, x, r[i]);
        FirstIndexUnique(xs, r[i], 0);
        if j < |r| {
          assert r'[j] == r[j];
          FirstIndexExtend(xs, x, r[j]);
        }
      }
    }
  }

  /** The first-seen list keeps the names in the order of their first occurrence in `xs`. */
  lemma {:induction false} FirstSeenOrder(xs: seq<string>)
    ensures InFirstOrder(FirstSeen(xs), xs)
  {
    if xs != [] {
      var init := xs[..|xs| - 1];
      var x := xs[|xs| - 1];
      assert xs == init + [x];
      FirstSeenOrder(init);
      FirstSeenMembers(init);
      var seen := FirstSeen(init);
      FirstOrderStep(seen, init, x);
      if x != "" && x !in seen {
        assert FirstSeen(xs) == seen + [x];
      } else {
        assert FirstSeen(xs) == seen;
      }
    }
  }

  /** The names a scan reports: empty when the command raised. */
  function ScanNames(out: CommandResult): seq<string>
  {
    match out
    case Raised => []
    case Ran(stdout) => FirstSeen(Candidates(Split(stdout, '\n')))
  }

  /** One more line of scan output extends the first-seen list by that line's name, if the line
      qualifies and the name is non-empty and new. */
  lemma ScanStep(lines: seq<string>, k: nat)
    requires k < |lines|
    ensures var seen := FirstSeen(Candidates(lines[..k]));
      FirstSeen(Candidates(lines[..k + 1])) ==
        if Qualifies(lines[k]) && SsidOf(lines[k]) != "" && SsidOf(lines[k]) !in seen
        then seen + [SsidOf(lines[k])] else seen
  {
    var line := lines[k];
    assert lines[..k + 1] == lines[..k] + [line];
    CandidatesAppend(lines[..k], [line]);
    assert [line][1..] == [];
    var names := Candidates(lines[..k + 1]);
    if Qualifies(line) {
      assert names == Candidates(lines[..k]) + [SsidOf(line)];
      assert names[..|names| - 1] == Candidates(lines[..k]);
    } else {
      assert Candidates([line]) == [];
      assert names == Candidates(lines[..k]) + [];
      assert names == Candidates(lines[..k]);
    }
  }

  /** The names a scan reports have no duplicates and no empty name; there are none when the
      command raised, and otherwise they are exactly the non-empty names on the qualifying lines,
      in the order each first appears. */
  lemma ScanNamesSpec(out: CommandResult)
    ensures var networks := ScanNames(out);
      NoDup(networks) && "" !in networks &&
      (out.Raised? ==> networks == []) &&
      (out.Ran? ==> var names := Candidates(Split(out.stdout, '\n'));
        (forall x :: x in networks <==> x in names && x != "") &&
        (forall i, j :: 0 <= i < j < |networks| ==>
           networks[i] in names && networks[j] in names &&
           FirstIndex(names, networks[i]) < FirstIndex(names, networks[j])))
  {
    if out.Ran? {
      var names := Candidates(Split(out.stdout, '\n'));
      FirstSeenMembers(names);
      FirstSeenOrder(names);
    }
  }

  /** `get_available_networks`, given what the scan command produced: the lines of its output
      are read one at a time, and the name on each qualifying line is appended unless it is
      empty or already listed. */
  method AvailableNetworks(out: CommandResult) returns (networks: seq<string>)
    ensures networks == ScanNames(out)
  {
    match out
    case Raised =>
      networks := [];
    case Ran(stdout) =>
      var lines := Split(stdout, '\n');
      networks := [];
      for k := 0 to |lines|
        invariant networks == FirstSeen(Candidates(lines[..k]))
      {
        var line := lines[k];
        ScanStep(lines, k);
        if Qualifies(line) && SsidOf(line) != "" && SsidOf(line) !in networks {
          networks := networks + [SsidOf(line)];
        }
      }
      assert lines[..|lines|] == lines;
  }

  /** The name on the first qualifying line, if there is one (it may be empty). */
  function FirstQualifying(lines: seq<string>): Option<string>
  {
    if lines == [] then None
    else if Qualifies(lines[0]) then Some(SsidOf(lines[0]))
    else FirstQualifying(lines[1..])
  }

  /** There is no name exactly when no line qualifies; otherwise the name is that of line `i`,
      the first qualifying line. */
  lemma {:induction false} FirstQualifyingSpec(lines: seq<string>) returns (i: nat)
    ensures FirstQualifying(lines).None? <==> forall k :: 0 <= k < |lines| ==> !Qualifies(lines[k])
    ensures FirstQualifying(lines).Some? ==>
      i < |lines| && Qualifies(lines[i]) && FirstQualifying(lines).value == SsidOf(lines[i]) &&
      forall k :: 0 <= k < i ==> !Qualifies(lines[k])
  {
    if lines == [] || Qualifies(lines[0]) {
      i := 0;
    } else {
      var tail := lines[1..];
      assert FirstQualifying(lines) == FirstQualifying(tail);
      var j := FirstQualifyingSpec(tail);
      i := j + 1;
      assert forall k :: 1 <= k < |lines| ==> lines[k] == tail[k - 1];
    }
  }

  /** `get_current_connection`, given what the interface listing produced. */
  function CurrentConnection(out: CommandResult): Option<string>
  {
    match out
    case Raised => None
    case Ran(stdout) => FirstQualifying(Split(stdout, '\n'))
  }

  /** The two readers agree: the associated network is the first name the scan reader would see
      in the same text, and there is none exactly when the scan reader sees no name at all. */
  lemma {:induction false} FirstQualifyingIsFirstCandidate(lines: seq<string>)
    ensures FirstQualifying(lines) == if Candidates(lines) == [] then None else Some(Candidates(lines)[0])
  {
    if lines != [] && !Qualifies(lines[0]) {
      FirstQualifyingIsFirstCandidate(lines[1..]);
    }
  }

  lemma CurrentConnectionIsFirstCandidate(stdout: string)
    ensures var names := Candidates(Split(stdout, '\n'));
      CurrentConnection(Ran(stdout)) == if names == [] then None else Some(names[0])
  {
    FirstQualifyingIsFirstCandidate(Split(stdout, '\n'));
  }
}
