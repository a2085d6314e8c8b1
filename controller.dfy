/**
  The acquisition controller (`scan_and_connect_all`): load the passwords, then repeat scan
  cycles. Each cycle scans, skips the networks already found working, and tries every password
  on each remaining network in turn, until an attempt finds internet. A success records the
  network and asks the operator whether to continue, stop or exit.

  Everything the run learns from outside is one `World` value. The script's `while True` is
  bounded by `maxCycles` scan cycles.
 */
module Controller {
  import opened Wrappers
  import opened Text
  import opened Netsh
  import opened Attempt

  /** One call of the attempt routine: the network, the password, the attempt number shown to
      the operator, and whether it found internet. */
  datatype Trial = Trial(ssid: string, password: string, number: int, ok: bool)

  /** The run's bookkeeping between scan cycles: the attempts made so far, the attempt counter
      shown to the operator, and the networks found working, in the order found. */
  datatype Tally = Tally(attempts: nat, counter: int, working: seq<string>)

  /** The bookkeeping before the first cycle: no attempt made, the counter at 1, nothing working. */
  const Initial: Tally := Tally(0, 1, [])

  /** One pass of the outer loop: the bookkeeping it started from, the names the scan reported,
      the names left after skipping working networks, and the attempts made. */
  datatype Cycle = Cycle(start: Tally, scanned: seq<string>, toTry: seq<string>, trials: seq<Trial>)

  /** What the run learns from outside. */
  datatype World = World(
    admin: bool,                    // the process runs elevated
    passwordFile: Option<string>,   // the password file's text, or None when reading it raised
    scans: nat -> CommandResult,    // the scan command's result in scan cycle c
    attempts: nat -> AttemptEnv,    // what the k-th attempt of the run sees
    choices: nat -> string)         // what the operator types after the s-th success

  /** The operator's answer after a success. */
  datatype Choice = Continue | Stop | Exit

  /** How a run ends. */
  datatype Ending =
    | NotAdmin              // not elevated: nothing is tried
    | PasswordsUnreadable   // reading the password file raised
    | NoPasswords           // the password file holds no usable line
    | AllTested             // a scan found names, all of them already working
    | Stopped               // the operator chose to keep the current network
    | Exited                // the operator chose to exit
    | OutOfCycles           // the bound on scan cycles was reached

  /** The stripped, non-empty lines, in order. */
  function CleanLines(lines: seq<string>): seq<string>
  {
    if lines == [] then []
    else
      var p := Strip(lines[0]);
      (if p != "" then [p] else []) + CleanLines(lines[1..])
  }

  /** A password as the loader keeps it: non-empty, without surrounding whitespace, one line. */
  predicate CleanPassword(p: string)
  {
    p != "" && !IsSpace(p[0]) && !IsSpace(p[|p| - 1]) && '\n' !in p
  }

  /** The password list read from the file's text (iterating a text file yields its lines). */
  function LoadPasswords(content: string): seq<string>
  {
    CleanLines(Split(content, '\n'))
  }

  /** A line without a line break that strips to something non-empty strips to a clean password. */
  lemma StripClean(line: string)
    requires '\n' !in line && Strip(line) != ""
    ensures CleanPassword(Strip(line))
  {
    var p := Strip(line);
    var pad := StripPadded(line);
    forall k | 0 <= k < |p|
      ensures p[k] != '\n'
    {
      assert p[k] == line[pad + k];
    }
  }

  /** Every loaded password is clean, and there are no more of them than lines. */
  lemma {:induction false} CleanLinesSpec(lines: seq<string>)
    requires forall line :: line in lines ==> '\n' !in line
    ensures |CleanLines(lines)| <= |lines|
    ensures forall p :: p in CleanLines(lines) ==> CleanPassword(p)
  {
    if lines != [] {
      var rest := CleanLines(lines[1..]);
      assert forall line :: line in lines[1..] ==> line in lines;
      CleanLinesSpec(lines[1..]);
      var p := Strip(lines[0]);
      if p != "" {
        StripClean(lines[0]);
        assert CleanLines(lines) == [p] + rest;
      } else {
        assert CleanLines(lines) == rest;
      }
    }
  }

  /** A list of clean lines is already clean. */
  lemma {:induction false} CleanLinesOfClean(ps: seq<string>)
    requires forall p :: p in ps ==> CleanPassword(p)
    ensures CleanLines(ps) == ps
  {
    if ps != [] {
      assert ps[0] in ps;
      StripFixed(ps[0]);
      assert forall p :: p in ps[1..] ==> p in ps;
      CleanLinesOfClean(ps[1..]);
      assert CleanLines(ps) == [ps[0]] + ps[1..];
      assert ps == [ps[0]] + ps[1..];
    }
  }

  /** Writing a list of clean passwords one per line and loading it gives the same list back. */
  lemma LoadPasswordsRoundTrip(ps: seq<string>)
    requires forall p :: p in ps ==> CleanPassword(p)
    ensures LoadPasswords(Join(ps, '\n')) == ps
  {
    if ps == [] {
      assert Join(ps, '\n') == "";
      assert Split("", '\n') == [""];
      assert Strip("") == "";
      assert CleanLines([""]) == [] + CleanLines([]);
    } else {
      forall i | 0 <= i < |ps|
        ensures '\n' !in ps[i]
      {
        assert ps[i] in ps;
      }
      SplitJoin(ps, '\n');
      assert LoadPasswords(Join(ps, '\n')) == CleanLines(ps);
      CleanLinesOfClean(ps);
    }
  }

  /** Every password loaded from a file is clean. */
  lemma LoadPasswordsClean(content: string)
    ensures forall p :: p in LoadPasswords(content) ==> CleanPassword(p)
  {
    CleanLinesSpec(Split(content, '\n'));
  }

  /** The operator's choice: `2` stops, `3` exits, anything else continues; the input is
      stripped first. */
  function Decide(input: string): Choice
  {
    var s := Strip(input);
    if s == "2" then Stop else if s == "3" then Exit else Continue
  }

  /** Whitespace typed around the answer does not change the choice. */
  lemma DecideIgnoresPadding(pre: string, input: string, post: string)
    requires forall k :: 0 <= k < |pre| ==> IsSpace(pre[k])
    requires forall k :: 0 <= k < |post| ==> IsSpace(post[k])
    ensures Decide(pre + input + post) == Decide(input)
  {
    StripPadding(pre, input, post);
  }

  /** `a` is `b` with some elements left out, order kept. */
  ghost predicate Subsequence(a: seq<string>, b: seq<string>)
  {
    a == [] ||
    (b != [] &&
     if a[|a| - 1] == b[|b| - 1] then Subsequence(a[..|a| - 1], b[..|b| - 1])
     else Subsequence(a, b[..|b| - 1]))
  }

  /** The scanned names that are not already working, in scan order. */
  function Without(names: seq<string>, done: seq<string>): seq<string>
  {
    if names == [] then []
    else
      var x := names[|names| - 1];
      Without(names[..|names| - 1], done) + if x in done then [] else [x]
  }

  /** The names left to try are exactly the scanned names that are not working, in scan order,
      and no name is left twice when the scan reported none twice. */
  lemma {:induction false} WithoutSpec(names: seq<string>, done: seq<string>)
    ensures forall x :: x in Without(names, done) <==> x in names && x !in done
    ensures Subsequence(Without(names, done), names)
    ensures NoDup(names) ==> NoDup(Without(names, done))
  {
    if names != [] {
      var init := names[..|names| - 1];
      var x := names[|names| - 1];
      assert names == init + [x];
      WithoutSpec(init, done);
      var rest := Without(init, done);
      if x !in done {
        var r := rest + [x];
        assert Without(names, done) == r;
        assert r[..|rest|] == rest && r[|rest|] == x;
      } else {
        assert Without(names, done) == rest;
        assert rest == [] || rest[|rest| - 1] in rest;
      }
    }
  }

  /** The attempts one network gets: each password in order. */
  function Row(ssid: string, passwords: seq<string>): seq<(string, string)>
  {
    seq(|passwords|, i requires 0 <= i < |passwords| => (ssid, passwords[i]))
  }

  /** The (network, password) pairs in the order the loops visit them: every password of a
      network before the next network. */
  function Pairs(nets: seq<string>, passwords: seq<string>): seq<(string, string)>
  {
    if nets == [] then []
    else Pairs(nets[..|nets| - 1], passwords) + Row(nets[|nets| - 1], passwords)
  }

  /** The visiting order is row by row: pair `n * |passwords| + j` is network `n` with password `j`. */
  lemma {:induction false} PairsAt(nets: seq<string>, passwords: seq<string>, n: nat, j: nat)
    requires n < |nets| && j < |passwords|
    ensures |Pairs(nets, passwords)| == |nets| * |passwords|
    ensures n * |passwords| + j < |Pairs(nets, passwords)|
    ensures Pairs(nets, passwords)[n * |passwords| + j] == (nets[n], passwords[j])
    decreases |nets|
  {
    var init := nets[..|nets| - 1];
    PairsLength(init, passwords);
    assert |nets| * |passwords| == |init| * |passwords| + |passwords|;
    if n < |init| {
      PairsAt(init, passwords, n, j);
      assert init[n] == nets[n];
    } else {
      assert n * |passwords| == |init| * |passwords|;
    }
  }

  lemma {:induction false} PairsLength(nets: seq<string>, passwords: seq<string>)
    ensures |Pairs(nets, passwords)| == |nets| * |passwords|
    decreases |nets|
  {
    if nets != [] {
      PairsLength(nets[..|nets| - 1], passwords);
      assert |nets| * |passwords| == (|nets| - 1) * |passwords| + |passwords|;
    }
  }

  /** Every pair names one of the networks and one of the passwords. */
  lemma {:induction false} PairsMember(nets: seq<string>, passwords: seq<string>, i: nat)
    requires i < |Pairs(nets, passwords)|
    ensures Pairs(nets, passwords)[i].0 in nets && Pairs(nets, passwords)[i].1 in passwords
    decreases |nets|
  {
    var init := nets[..|nets| - 1];
    if i < |Pairs(init, passwords)| {
      PairsMember(init, passwords, i);
    }
  }

  /** The pairs of the first `m` networks are where the pairs of all of them start. */
  lemma {:induction false} PairsPrefix(nets: seq<string>, passwords: seq<string>, m: nat)
    requires m <= |nets|
    ensures |Pairs(nets[..m], passwords)| <= |Pairs(nets, passwords)|
    ensures Pairs(nets, passwords)[..|Pairs(nets[..m], passwords)|] == Pairs(nets[..m], passwords)
    decreases |nets|
  {
    if m < |nets| {
      var init := nets[..|nets| - 1];
      PairsPrefix(init, passwords, m);
      assert init[..m] == nets[..m];
    } else {
      assert nets[..m] == nets;
    }
  }

  /** The attempts follow the plan `plan` from its start, carry consecutive attempt numbers from
      `counter0`, and each found internet exactly when its world said so. */
  ghost predicate Matches(trials: seq<Trial>, plan: seq<(string, string)>, w: World, k0: nat, counter0: int)
  {
    |trials| <= |plan| &&
    forall i :: 0 <= i < |trials| ==>
      (trials[i].ssid, trials[i].password) == plan[i] &&
      trials[i].number == counter0 + i &&
      trials[i].ok == Succeeds(trials[i].ssid, w.attempts(k0 + i))
  }

  /** The attempts of one cycle. They follow the visiting order of the networks to try. Every
      attempt but the last failed, and the cycle stops before the end of the order only right
      after a success. */
  ghost predicate CycleShape(toTry: seq<string>, passwords: seq<string>, w: World, k0: nat, counter0: int,
                             trials: seq<Trial>)
  {
    var plan := Pairs(toTry, passwords);
    Matches(trials, plan, w, k0, counter0) &&
    (forall i :: 0 <= i < |trials| - 1 ==> !trials[i].ok) &&
    (|trials| < |plan| ==> trials != [] && trials[|trials| - 1].ok)
  }

  /** Attempts that follow the whole of one plan, then the row of one network, follow the plan
      with that row appended. */
  lemma MatchesRow(trials: seq<Trial>, plan: seq<(string, string)>, w: World, k0: nat, counter0: int,
                   ssid: string, passwords: seq<string>, sub: seq<Trial>)
    requires Matches(trials, plan, w, k0, counter0) && |trials| == |plan|
    requires |sub| <= |passwords|
    requires forall i :: 0 <= i < |sub| ==>
      sub[i] == Trial(ssid, passwords[i], counter0 + |trials| + i, Succeeds(ssid, w.attempts(k0 + |trials| + i)))
    ensures Matches(trials + sub, plan + Row(ssid, passwords), w, k0, counter0)
  {
    var all := trials + sub;
    var big := plan + Row(ssid, passwords);
    forall i | 0 <= i < |all|
      ensures (all[i].ssid, all[i].password) == big[i]
      ensures all[i].number == counter0 + i
      ensures all[i].ok == Succeeds(all[i].ssid, w.attempts(k0 + i))
    {
      if i >= |trials| {
        assert all[i] == sub[i - |trials|];
      }
    }
  }

  /** Attempts that follow a plan follow any plan that starts with it. */
  lemma MatchesWithin(trials: seq<Trial>, plan: seq<(string, string)>, big: seq<(string, string)>,
                      w: World, k0: nat, counter0: int)
    requires Matches(trials, plan, w, k0, counter0)
    requires |plan| <= |big| && big[..|plan|] == plan
    ensures Matches(trials, big, w, k0, counter0)
  {
    forall i | 0 <= i < |trials|
      ensures big[i] == plan[i]
    {
      assert big[..|plan|][i] == big[i];
    }
  }

  /** The number of failed attempts. */
  function Failures(trials: seq<Trial>): nat
  {
    if trials == [] then 0
    else Failures(trials[..|trials| - 1]) + if trials[|trials| - 1].ok then 0 else 1
  }

  /** The networks of the successful attempts, in order. */
  function Successes(trials: seq<Trial>): seq<string>
  {
    if trials == [] then []
    else Successes(trials[..|trials| - 1]) + if trials[|trials| - 1].ok then [trials[|trials| - 1].ssid] else []
  }

  lemma {:induction false} TrialsAppend(a: seq<Trial>, b: seq<Trial>)
    ensures Failures(a + b) == Failures(a) + Failures(b)
    ensures Successes(a + b) == Successes(a) + Successes(b)
    decreases |b|
  {
    if b == [] {
      assert a + b == a;
    } else {
      var c := b[..|b| - 1];
      TrialsAppend(a, c);
      assert (a + b)[..|a + b| - 1] == a + c;
    }
  }

  /** A cycle's attempts hold at most one success, its last. */
  lemma {:induction false} CycleTally(trials: seq<Trial>)
    requires forall i :: 0 <= i < |trials| - 1 ==> !trials[i].ok
    ensures var won := trials != [] && trials[|trials| - 1].ok;
      Failures(trials) == (if won then |trials| - 1 else |trials|) &&
      Successes(trials) == if won then [trials[|trials| - 1].ssid] else []
  {
    if trials != [] {
      var init := trials[..|trials| - 1];
      AllFailed(init);
    }
  }

  lemma {:induction false} AllFailed(trials: seq<Trial>)
    requires forall i :: 0 <= i < |trials| ==> !trials[i].ok
    ensures Failures(trials) == |trials| && Successes(trials) == []
    decreases |trials|
  {
    if trials != [] {
      AllFailed(trials[..|trials| - 1]);
    }
  }

  /** The inner loop: every password on `ssid`, in order, until one finds internet. `k0` is the
      number of attempts made before, `counter0` the attempt counter. */
  method TryPasswords(ssid: string, passwords: seq<string>, w: World, k0: nat, counter0: int)
    returns (trials: seq<Trial>, counter: int)
    ensures |trials| <= |passwords|
    ensures forall i :: 0 <= i < |trials| ==>
      trials[i] == Trial(ssid, passwords[i], counter0 + i, Succeeds(ssid, w.attempts(k0 + i)))
    ensures forall i :: 0 <= i < |trials| - 1 ==> !trials[i].ok
    ensures |trials| < |passwords| ==> trials != [] && trials[|trials| - 1].ok
    ensures counter == counter0 + Failures(trials)
  {
    trials, counter := [], counter0;
    for j := 0 to |passwords|
      invariant |trials| == j && counter == counter0 + j
      invariant forall i :: 0 <= i < j ==>
        trials[i] == Trial(ssid, passwords[i], counter0 + i, Succeeds(ssid, w.attempts(k0 + i))) && !trials[i].ok
    {
      var env := w.attempts(k0 + j);
      var ok, _, _ := TestNetworkWithPassword(ssid, passwords[j], counter, env);
      trials := trials + [Trial(ssid, passwords[j], counter, ok)];
      assert trials[j] == Trial(ssid, passwords[j], counter0 + j, Succeeds(ssid, w.attempts(k0 + j)));
      if ok {
        CycleTally(trials);
        return;
      }
      counter := counter + 1;
    }
    AllFailed(trials);
  }

  /** The attempts made so far in a cycle, after the networks `toTry[..n]` all failed. */
  ghost predicate FailedSoFar(toTry: seq<string>, passwords: seq<string>, w: World, k0: nat, counter0: int,
                              n: nat, trials: seq<Trial>)
    requires n <= |toTry|
  {
    var plan := Pairs(toTry[..n], passwords);
    |trials| == |plan| && Matches(trials, plan, w, k0, counter0) &&
    forall i :: 0 <= i < |trials| ==> !trials[i].ok
  }

  /** One step of the network loop: the inner loop's attempts on network `n` either all fail,
      and the cycle goes on, or end in a success, and the cycle has its final shape. */
  lemma NetworkStep(toTry: seq<string>, passwords: seq<string>, w: World, k0: nat, counter0: int,
                    n: nat, trials: seq<Trial>, sub: seq<Trial>)
    requires n < |toTry| && FailedSoFar(toTry, passwords, w, k0, counter0, n, trials)
    requires |sub| <= |passwords|
    requires forall i :: 0 <= i < |sub| ==>
      sub[i] == Trial(toTry[n], passwords[i], counter0 + |trials| + i, Succeeds(toTry[n], w.attempts(k0 + |trials| + i)))
    requires forall i :: 0 <= i < |sub| - 1 ==> !sub[i].ok
    requires |sub| < |passwords| ==> sub != [] && sub[|sub| - 1].ok
    ensures sub != [] && sub[|sub| - 1].ok ==> CycleShape(toTry, passwords, w, k0, counter0, trials + sub)
    ensures !(sub != [] && sub[|sub| - 1].ok) ==> FailedSoFar(toTry, passwords, w, k0, counter0, n + 1, trials + sub)
  {
    var plan := Pairs(toTry[..n], passwords);
    assert toTry[..n + 1][..n] == toTry[..n] && toTry[..n + 1][n] == toTry[n];
    var next := Pairs(toTry[..n + 1], passwords);
    assert next == plan + Row(toTry[n], passwords);
    MatchesRow(trials, plan, w, k0, counter0, toTry[n], passwords, sub);
    var all := trials + sub;
    if sub != [] && sub[|sub| - 1].ok {
      PairsPrefix(toTry, passwords, n + 1);
      MatchesWithin(all, next, Pairs(toTry, passwords), w, k0, counter0);
      forall i | 0 <= i < |all| - 1
        ensures !all[i].ok
      {
        if i >= |trials| {
          assert all[i] == sub[i - |trials|];
        }
      }
      assert all[|all| - 1] == sub[|sub| - 1];
    } else {
      forall i | 0 <= i < |all|
        ensures !all[i].ok
      {
        if i >= |trials| {
          assert all[i] == sub[i - |trials|];
        }
      }
    }
  }

  /** Failed attempts followed by the attempts on one more network: every attempt failed but
      perhaps the last. */
  lemma FailuresStep(trials: seq<Trial>, sub: seq<Trial>)
    requires forall i :: 0 <= i < |trials| ==> !trials[i].ok
    requires forall i :: 0 <= i < |sub| - 1 ==> !sub[i].ok
    ensures var won := sub != [] && sub[|sub| - 1].ok;
      Failures(sub) == (if won then |sub| - 1 else |sub|) &&
      Failures(trials + sub) == |trials| + Failures(sub)
  {
    TrialsAppend(trials, sub);
    AllFailed(trials);
    CycleTally(sub);
  }

  /** The loop over the networks of one cycle: each network gets the inner loop, and the cycle
      ends at the first success. */
  method TryNetworks(toTry: seq<string>, passwords: seq<string>, w: World, k0: nat, counter0: int)
    returns (trials: seq<Trial>, counter: int)
    ensures CycleShape(toTry, passwords, w, k0, counter0, trials)
    ensures counter == counter0 + Failures(trials)
  {
    trials, counter := [], counter0;
    for n := 0 to |toTry|
      invariant FailedSoFar(toTry, passwords, w, k0, counter0, n, trials)
      invariant counter == counter0 + |trials|
    {
      var sub, c := TryPasswords(toTry[n], passwords, w, k0 + |trials|, counter);
      NetworkStep(toTry, passwords, w, k0, counter0, n, trials, sub);
      FailuresStep(trials, sub);
      trials := trials + sub;
      counter := c;
      if sub != [] && sub[|sub| - 1].ok {
        return;
      }
    }
    assert toTry[..|toTry|] == toTry;
    AllFailed(trials);
  }

  /** The cycle's last attempt found internet. */
  predicate Won(cy: Cycle)
  {
    cy.trials != [] && cy.trials[|cy.trials| - 1].ok
  }

  /** The bookkeeping after a cycle: its attempts counted, its failures added to the counter, its
      successes appended to the working networks. */
  function After(cy: Cycle): Tally
  {
    Tally(cy.start.attempts + |cy.trials|, cy.start.counter + Failures(cy.trials),
          cy.start.working + Successes(cy.trials))
  }

  /** The bookkeeping after the cycles `cycles`. */
  function Current(cycles: seq<Cycle>): Tally
  {
    if cycles == [] then Initial else After(cycles[|cycles| - 1])
  }

  /** Cycle number `c` is what the script does from the bookkeeping it started with: it reports
      the names of scan `c`, tries those not already working, and its attempts have the cycle
      shape, numbered on from the counter. */
  ghost predicate Follows(w: World, passwords: seq<string>, c: nat, cy: Cycle)
  {
    cy.scanned == ScanNames(w.scans(c)) &&
    cy.toTry == Without(cy.scanned, cy.start.working) &&
    CycleShape(cy.toTry, passwords, w, cy.start.attempts, cy.start.counter, cy.trials)
  }

  /** Every cycle starts from the bookkeeping the cycles before it left. */
  predicate Chained(cycles: seq<Cycle>)
  {
    cycles == [] ||
    (Chained(cycles[..|cycles| - 1]) && cycles[|cycles| - 1].start == Current(cycles[..|cycles| - 1]))
  }

  /** Every cycle follows from where it started. */
  ghost predicate AllFollow(w: World, passwords: seq<string>, cycles: seq<Cycle>)
  {
    cycles == [] ||
    (AllFollow(w, passwords, cycles[..|cycles| - 1]) && Follows(w, passwords, |cycles| - 1, cycles[|cycles| - 1]))
  }

  /** The cycles are what the script does, one after the other. */
  ghost predicate History(w: World, passwords: seq<string>, cycles: seq<Cycle>)
  {
    Chained(cycles) && AllFollow(w, passwords, cycles)
  }

  /** A cycle does not end the run: its scan was empty or it had networks to try, and a success
      in it was answered with "continue". */
  predicate Continues(w: World, cy: Cycle)
  {
    (cy.scanned == [] || cy.toTry != []) &&
    (Won(cy) ==> Decide(w.choices(|cy.start.working|)) == Continue)
  }

  /** Every cycle let the run go on. */
  predicate AllContinue(w: World, cycles: seq<Cycle>)
  {
    cycles == [] || (AllContinue(w, cycles[..|cycles| - 1]) && Continues(w, cycles[|cycles| - 1]))
  }

  /** In a chain, cycle `c` starts where the `c` cycles before it left off. */
  lemma {:induction false} StartAt(cycles: seq<Cycle>, c: nat)
    requires Chained(cycles) && c < |cycles|
    ensures cycles[c].start == Current(cycles[..c])
    decreases |cycles|
  {
    var init := cycles[..|cycles| - 1];
    if c < |init| {
      StartAt(init, c);
      assert init[..c] == cycles[..c];
    } else {
      assert init == cycles[..c];
    }
  }

  /** If every cycle follows, cycle `c` does. */
  lemma {:induction false} FollowsAt(w: World, passwords: seq<string>, cycles: seq<Cycle>, c: nat)
    requires AllFollow(w, passwords, cycles) && c < |cycles|
    ensures Follows(w, passwords, c, cycles[c])
    decreases |cycles|
  {
    if c < |cycles| - 1 {
      FollowsAt(w, passwords, cycles[..|cycles| - 1], c);
    }
  }

  /** If every cycle let the run go on, cycle `c` did. */
  lemma {:induction false} ContinuesAt(w: World, cycles: seq<Cycle>, c: nat)
    requires AllContinue(w, cycles) && c < |cycles|
    ensures Continues(w, cycles[c])
    decreases |cycles|
  {
    if c < |cycles| - 1 {
      ContinuesAt(w, cycles[..|cycles| - 1], c);
    }
  }

  /** A cycle that starts where a history left off, and follows, extends the history. */
  lemma HistoryStep(w: World, passwords: seq<string>, cycles: seq<Cycle>, cy: Cycle)
    requires History(w, passwords, cycles)
    requires cy.start == Current(cycles) && Follows(w, passwords, |cycles|, cy)
    ensures History(w, passwords, cycles + [cy]) && Current(cycles + [cy]) == After(cy)
  {
    assert (cycles + [cy])[..|cycles|] == cycles;
  }

  /** The last cycle of a history starts where the ones before it left off and follows; the
      bookkeeping after the history is the bookkeeping after that cycle. */
  lemma HistoryLast(w: World, passwords: seq<string>, cycles: seq<Cycle>)
    requires History(w, passwords, cycles) && cycles != []
    ensures var prior := cycles[..|cycles| - 1];
      var cy := cycles[|cycles| - 1];
      History(w, passwords, prior) && cy.start == Current(prior) &&
      Follows(w, passwords, |prior|, cy) && Current(cycles) == After(cy)
  {
  }

  lemma AllContinueStep(w: World, cycles: seq<Cycle>, cy: Cycle)
    requires AllContinue(w, cycles) && Continues(w, cy)
    ensures AllContinue(w, cycles + [cy])
  {
    assert (cycles + [cy])[..|cycles|] == cycles;
  }

  /** A cycle that follows tries only scanned names that are not working. */
  lemma CycleTries(w: World, passwords: seq<string>, c: nat, cy: Cycle)
    requires Follows(w, passwords, c, cy)
    ensures forall i :: 0 <= i < |cy.trials| ==>
      cy.trials[i].ssid in cy.scanned && cy.trials[i].ssid !in cy.start.working
  {
    WithoutSpec(cy.scanned, cy.start.working);
    forall i | 0 <= i < |cy.trials|
      ensures cy.trials[i].ssid in cy.scanned && cy.trials[i].ssid !in cy.start.working
    {
      PairsMember(cy.toTry, passwords, i);
    }
  }

  /** A cycle that follows fails on every attempt but a winning last one, and adds to the working
      networks at most one name, new to them. */
  lemma CycleTallies(w: World, passwords: seq<string>, c: nat, cy: Cycle)
    requires Follows(w, passwords, c, cy)
    ensures Failures(cy.trials) == if Won(cy) then |cy.trials| - 1 else |cy.trials|
    ensures After(cy).working == cy.start.working + if Won(cy) then [cy.trials[|cy.trials| - 1].ssid] else []
    ensures NoDup(cy.start.working) ==> NoDup(After(cy).working)
  {
    assert forall i :: 0 <= i < |cy.trials| - 1 ==> !cy.trials[i].ok;
    CycleTally(cy.trials);
    if !Won(cy) {
      assert After(cy).working == cy.start.working;
    } else if NoDup(cy.start.working) {
      CycleTries(w, passwords, c, cy);
      NoDupAppend(cy.start.working, cy.trials[|cy.trials| - 1].ssid);
    }
  }

  /** Every attempt of the cycles, in order. */
  function AllTrials(cycles: seq<Cycle>): seq<Trial>
  {
    if cycles == [] then []
    else AllTrials(cycles[..|cycles| - 1]) + cycles[|cycles| - 1].trials
  }

  /** The bookkeeping counts the whole run: the attempts made, one more than the failures on the
      counter, and the successes in order as the working networks. */
  lemma {:induction false} CurrentCounts(cycles: seq<Cycle>)
    requires Chained(cycles)
    ensures var all := AllTrials(cycles);
      Current(cycles) == Tally(|all|, 1 + Failures(all), Successes(all))
    decreases |cycles|
  {
    if cycles != [] {
      var prior := cycles[..|cycles| - 1];
      CurrentCounts(prior);
      TrialsAppend(AllTrials(prior), cycles[|cycles| - 1].trials);
    }
  }

  /** No network is found working twice: the working list never holds a name twice. */
  lemma {:induction false} WorkingNoDup(w: World, passwords: seq<string>, cycles: seq<Cycle>)
    requires History(w, passwords, cycles)
    ensures NoDup(Current(cycles).working)
    decreases |cycles|
  {
    if cycles != [] {
      var prior := cycles[..|cycles| - 1];
      var cy := cycles[|cycles| - 1];
      HistoryLast(w, passwords, cycles);
      WorkingNoDup(w, passwords, prior);
      CycleTallies(w, passwords, |prior|, cy);
    }
  }

  /** The working list only grows: after `m` cycles it is a prefix of what it is after `n`. */
  lemma {:induction false} WorkingGrows(cycles: seq<Cycle>, m: nat, n: nat)
    requires Chained(cycles) && m <= n <= |cycles|
    ensures Current(cycles[..m]).working <= Current(cycles[..n]).working
    decreases n
  {
    if m < n {
      WorkingGrows(cycles, m, n - 1);
      StartAt(cycles, n - 1);
      var cy := cycles[n - 1];
      assert cycles[..n][n - 1] == cy;
      assert Current(cycles[..n]) == After(cy);
      assert After(cy).working == Current(cycles[..n - 1]).working + Successes(cy.trials);
    }
  }

  /** A network found working is never tried again in a later cycle. */
  lemma NoRetry(w: World, passwords: seq<string>, cycles: seq<Cycle>, c: nat, d: nat)
    requires History(w, passwords, cycles) && c < d < |cycles|
    requires Won(cycles[c])
    ensures forall i :: 0 <= i < |cycles[d].trials| ==>
      cycles[d].trials[i].ssid != cycles[c].trials[|cycles[c].trials| - 1].ssid
  {
    var ssid := cycles[c].trials[|cycles[c].trials| - 1].ssid;
    FollowsAt(w, passwords, cycles, c);
    CycleTallies(w, passwords, c, cycles[c]);
    assert cycles[..c + 1][c] == cycles[c];
    assert ssid in Current(cycles[..c + 1]).working;
    WorkingGrows(cycles, c + 1, d);
    StartAt(cycles, d);
    FollowsAt(w, passwords, cycles, d);
    assert ssid in cycles[d].start.working;
    CycleTries(w, passwords, d, cycles[d]);
  }

  /** The first half of a pass of the `while True` loop, from the bookkeeping `start`: scan, skip
      the working networks, and try the others. Returns the cycle and the attempt counter after
      it. */
  method TryCycle(w: World, passwords: seq<string>, c: nat, start: Tally) returns (cy: Cycle, counter: int)
    ensures cy.start == start && Follows(w, passwords, c, cy)
    ensures counter == After(cy).counter
    ensures cy.toTry == [] ==> cy.trials == []
    ensures forall x :: x in cy.toTry <==> x in cy.scanned && x !in start.working
  {
    var networks := AvailableNetworks(w.scans(c));
    var toTry := Without(networks, start.working);
    WithoutSpec(networks, start.working);
    var trials: seq<Trial> := [];
    counter := start.counter;
    if toTry != [] {
      trials, counter := TryNetworks(toTry, passwords, w, start.attempts, start.counter);
    }
    cy := Cycle(start, networks, toTry, trials);
  }

  /** One pass of the `while True` loop, from the bookkeeping `start`: scan, skip the working
      networks, try the others, and after a success ask the operator. Returns the cycle, the
      bookkeeping after it, and how the run ends if it ends here. */
  method ScanCycle(w: World, passwords: seq<string>, c: nat, start: Tally)
    returns (cy: Cycle, counter: int, working: seq<string>, stop: Option<Ending>)
    ensures cy.start == start && Follows(w, passwords, c, cy)
    ensures counter == After(cy).counter && working == After(cy).working
    ensures NoDup(start.working) ==> NoDup(working)
    ensures stop == None <==> Continues(w, cy)
    ensures stop == Some(AllTested) <==> cy.scanned != [] && cy.toTry == []
    ensures stop == Some(AllTested) ==> forall x :: x in cy.scanned ==> x in start.working
    ensures stop == Some(Stopped) <==> Won(cy) && Decide(w.choices(|start.working|)) == Stop
    ensures stop == Some(Exited) <==> Won(cy) && Decide(w.choices(|start.working|)) == Exit
    ensures stop.Some? ==> stop.value in {AllTested, Stopped, Exited}
  {
    cy, counter := TryCycle(w, passwords, c, start);
    CycleTallies(w, passwords, c, cy);
    working := start.working;
    stop := None;
    if cy.scanned != [] && cy.toTry == [] {
      stop := Some(AllTested);
    } else if Won(cy) {
      working := working + [cy.trials[|cy.trials| - 1].ssid];
      var choice := Decide(w.choices(|start.working|));
      if choice == Stop {
        stop := Some(Stopped);
      } else if choice == Exit {
        stop := Some(Exited);
      }
    }
  }

  /** The scan cycles of `scan_and_connect_all` (its `while True` loop), once the passwords are
      loaded: at most `maxCycles` of them, each following the ones before, every one but the
      last letting the run go on. The last one ends the run: its scan found only working
      networks, or a success in it was answered with "stop" or "exit". */
  method RunCycles(w: World, passwords: seq<string>, maxCycles: nat)
    returns (ending: Ending, working: seq<string>, attemptCounter: int, cycles: seq<Cycle>)
    ensures ending in {AllTested, Stopped, Exited, OutOfCycles}
    ensures History(w, passwords, cycles) && |cycles| <= maxCycles
    ensures working == Current(cycles).working && attemptCounter == Current(cycles).counter
    ensures NoDup(working)
    ensures cycles == [] || AllContinue(w, cycles[..|cycles| - 1])
    ensures ending == OutOfCycles ==> |cycles| == maxCycles && AllContinue(w, cycles)
    ensures ending != OutOfCycles ==> cycles != [] && !Continues(w, cycles[|cycles| - 1])
    ensures ending != OutOfCycles ==>
      var last := cycles[|cycles| - 1];
      (ending == AllTested <==> last.scanned != [] && last.toTry == []) &&
      (ending == AllTested ==> forall x :: x in last.scanned ==> x in working) &&
      (ending == Stopped <==> Won(last) && Decide(w.choices(|last.start.working|)) == Stop) &&
      (ending == Exited <==> Won(last) && Decide(w.choices(|last.start.working|)) == Exit)
  {
    working, attemptCounter, cycles := [], 1, [];
    var k: nat := 0;
    while |cycles| < maxCycles
      invariant |cycles| <= maxCycles
      invariant History(w, passwords, cycles) && AllContinue(w, cycles)
      invariant Current(cycles) == Tally(k, attemptCounter, working)
      invariant NoDup(working)
    {
      var cy, counter, working', stop := ScanCycle(w, passwords, |cycles|, Tally(k, attemptCounter, working));
      HistoryStep(w, passwords, cycles, cy);
      ghost var prior := cycles;
      cycles := cycles + [cy];
      assert cycles[..|cycles| - 1] == prior && cycles[|cycles| - 1] == cy;
      k, attemptCounter, working := k + |cy.trials|, counter, working';
      if stop.Some? {
        return stop.value, working, attemptCounter, cycles;
      }
      AllContinueStep(w, prior, cy);
    }
    ending := OutOfCycles;
  }

  /** `scan_and_connect_all`: the preflight checks (elevation, a readable password file with at
      least one password), then the scan cycles. Nothing is tried unless every check passes. */
  method ScanAndConnectAll(w: World, maxCycles: nat)
    returns (ending: Ending, working: seq<string>, attemptCounter: int, cycles: seq<Cycle>)
    ensures ending == NotAdmin <==> !w.admin
    ensures ending == PasswordsUnreadable <==> w.admin && w.passwordFile.None?
    ensures ending == NoPasswords <==> w.admin && w.passwordFile.Some? && LoadPasswords(w.passwordFile.value) == []
    ensures ending in {NotAdmin, PasswordsUnreadable, NoPasswords} ==> cycles == [] && working == []
    ensures ending !in {NotAdmin, PasswordsUnreadable, NoPasswords} ==>
      w.passwordFile.Some? && LoadPasswords(w.passwordFile.value) != [] &&
      History(w, LoadPasswords(w.passwordFile.value), cycles) && |cycles| <= maxCycles &&
      working == Current(cycles).working && attemptCounter == Current(cycles).counter && NoDup(working)
    ensures ending !in {NotAdmin, PasswordsUnreadable, NoPasswords} ==>
      cycles == [] || AllContinue(w, cycles[..|cycles| - 1])
    ensures ending == OutOfCycles ==> |cycles| == maxCycles && AllContinue(w, cycles)
    ensures ending in {AllTested, Stopped, Exited} ==> cycles != [] && !Continues(w, cycles[|cycles| - 1])
    ensures ending in {AllTested, Stopped, Exited} ==>
      var last := cycles[|cycles| - 1];
      (ending == AllTested <==> last.scanned != [] && last.toTry == []) &&
      (ending == AllTested ==> forall x :: x in last.scanned ==> x in working) &&
      (ending == Stopped <==> Won(last) && Decide(w.choices(|last.start.working|)) == Stop) &&
      (ending == Exited <==> Won(last) && Decide(w.choices(|last.start.working|)) == Exit)
  {
    working, attemptCounter, cycles := [], 1, [];
    if !w.admin {
      return NotAdmin, working, attemptCounter, cycles;
    }
    if w.passwordFile.None? {
      return PasswordsUnreadable, working, attemptCounter, cycles;
    }
    var passwords := LoadPasswords(w.passwordFile.value);
    if passwords == [] {
      return NoPasswords, working, attemptCounter, cycles;
    }
    ending, working, attemptCounter, cycles := RunCycles(w, passwords, maxCycles);
  }
}
