/**
 * `attribuerIndividusEnMasse`: giving a selection of individuals to users
 * according to a percentage distribution. Each active rule, in order, takes
 * the next `floor(percentage / total * n)` individuals of a shuffled list;
 * what is left is dealt round-robin over the active rules. An assignment is
 * written only when it changes the stored `en_charge`.
 */
module MassAssignment {
  import opened Wrappers
  import opened Text
  import opened JsonData
  import opened IndividuAudit

  /** A distribution rule; `userId` is `None` when undefined. Percentages are integers. */
  datatype Rule = Rule(userId: Option<Json>, percentage: int)

  /** `{ individuId, newUserId }`; `None` is a null user. */
  datatype Assignment = Assignment(individu: int, user: Option<int>)

  /** Assign position `pos` of the shuffled list to `user`. */
  datatype Step = Step(pos: nat, user: Option<int>)

  /** A rule with a defined user and a positive percentage takes part. */
  predicate IsActive(r: Rule) {
    r.userId.Some? && r.percentage > 0
  }

  function ActiveRules(rules: seq<Rule>): (r: seq<Rule>)
    ensures |r| <= |rules| && forall k :: 0 <= k < |r| ==> IsActive(r[k]) && r[k] in rules
    ensures forall x :: x in rules && IsActive(x) ==> x in r
  {
    if rules == [] then []
    else (if IsActive(rules[0]) then [rules[0]] else []) + ActiveRules(rules[1..])
  }

  /** No distribution, an empty one, or one whose every rule is 0 % for a null user: everyone is unassigned. */
  predicate UnassignAll(distribution: Option<seq<Rule>>) {
    distribution.None? || distribution.value == []
    || forall r :: r in distribution.value ==> r.percentage == 0 && r.userId == Some(JNull)
  }

  function Total(rules: seq<Rule>): int {
    if rules == [] then 0 else rules[0].percentage + Total(rules[1..])
  }

  lemma {:induction false} TotalPositive(rules: seq<Rule>)
    requires rules != [] && forall k :: 0 <= k < |rules| ==> IsActive(rules[k])
    ensures Total(rules) > 0
  {
    if |rules| > 1 {
      TotalPositive(rules[1..]);
    }
  }

  /** The user a rule gives individuals to: '' is null, anything else goes through `parseInt`; `None` when that is NaN. */
  function RuleUser(r: Rule): (u: Option<Option<int>>)
    ensures r.userId == Some(JNull) || r.userId.None? ==> u.None?
    ensures r.userId == Some(JStr("")) ==> u == Some(None)
    ensures r.userId.Some? && r.userId.value.JInt? ==> u == Some(Some(r.userId.value.i))
  {
    if r.userId == Some(JStr("")) then Some(None)
    else if r.userId.None? then None
    else match ParseIntOf(r.userId.value)
      case None => None
      case Some(i) => Some(Some(i))
  }

  /** An active rule with the user it resolves to. */
  datatype Share = Share(rule: Rule, user: Option<Option<int>>)

  function Shares(active: seq<Rule>): (r: seq<Share>)
    ensures |r| == |active| && forall k :: 0 <= k < |r| ==> r[k] == Share(active[k], RuleUser(active[k]))
  {
    seq(|active|, k requires 0 <= k < |active| => Share(active[k], RuleUser(active[k])))
  }

  /** The error for a rule whose user is not a number (`${undefined}` reads "undefined"). */
  function InvalidRule(r: Rule): string
  {
    "Invalid user ID in distribution rule: " + (if r.userId.None? then "undefined" else Show(r.userId.value))
  }

  /** `take` consecutive positions from `cur`, all for `user`. */
  function Run(cur: nat, take: nat, user: Option<int>): (r: seq<Step>)
    ensures |r| == take && forall k :: 0 <= k < take ==> r[k] == Step(cur + k, user)
  {
    seq(take, k requires 0 <= k < take => Step(cur + k, user))
  }

  /** The number of individuals a rule's slice asks for: `Math.floor(p / total * n)`, in exact arithmetic. */
  function SliceSize(r: Share, total: int, n: nat): int
    requires total > 0
  {
    (r.rule.percentage * n) / total
  }

  datatype SliceOut = SliceOut(steps: seq<Step>, errors: seq<string>, next: nat)

  /** The slices of `rules`, starting at position `cur`: consecutive positions, one run per valid rule. */
  function Slices(rules: seq<Share>, total: int, n: nat, cur: nat): (r: SliceOut)
    requires cur <= n && total > 0
    ensures cur <= r.next <= n && r.next == cur + |r.steps|
    ensures forall k :: 0 <= k < |r.steps| ==> r.steps[k].pos == cur + k
    decreases |rules|
  {
    if rules == [] then SliceOut([], [], cur)
    else
      var rule := rules[0];
      match rule.user
      case None =>
        var t := Slices(rules[1..], total, n, cur);
        SliceOut(t.steps, [InvalidRule(rule.rule)] + t.errors, t.next)
      case Some(u) =>
        var count := SliceSize(rule, total, n);
        var take: nat := if count <= 0 then 0 else Min(count, n - cur);
        var t := Slices(rules[1..], total, n, cur + take);
        SliceOut(Run(cur, take, u) + t.steps, t.errors, t.next)
  }

  /** The round-robin remainder from position `cur`, the `k`-th turn going to `active[k % |active|]`; an invalid rule's turn is skipped. */
  function Remainder(active: seq<Share>, n: nat, cur: nat, k: nat): (r: seq<Step>)
    ensures forall i :: 0 <= i < |r| ==> cur <= r[i].pos < n
    ensures forall i, j :: 0 <= i < j < |r| ==> r[i].pos < r[j].pos
    decreases n - cur
  {
    if cur >= n || active == [] then []
    else
      match active[k % |active|].user
      case None => Remainder(active, n, cur + 1, k + 1)
      case Some(u) => [Step(cur, u)] + Remainder(active, n, cur + 1, k + 1)
  }

  /** Both halves of a percentage distribution over `n` shuffled individuals, with the errors of invalid rules. */
  function Distribute(active: seq<Rule>, n: nat): (r: (seq<Step>, seq<string>))
    requires active != [] && forall k :: 0 <= k < |active| ==> IsActive(active[k])
    ensures forall i :: 0 <= i < |r.0| ==> r.0[i].pos < n
    ensures forall i, j :: 0 <= i < j < |r.0| ==> r.0[i].pos < r.0[j].pos
  {
    TotalPositive(active);
    var shares := Shares(active);
    var s := Slices(shares, Total(active), n, 0);
    var rem := Remainder(shares, n, s.next, 0);
    var steps := s.steps + rem;
    assert forall i, j :: 0 <= i < |s.steps| <= j < |steps| ==> steps[i].pos < s.next <= steps[j].pos;
    (steps, s.errors)
  }

  function AtPositions(shuffled: seq<int>, steps: seq<Step>): (r: seq<Assignment>)
    requires forall i :: 0 <= i < |steps| ==> steps[i].pos < |shuffled|
    ensures |r| == |steps|
    ensures forall i :: 0 <= i < |r| ==> r[i] == Assignment(shuffled[steps[i].pos], steps[i].user)
  {
    seq(|steps|, i requires 0 <= i < |steps| => Assignment(shuffled[steps[i].pos], steps[i].user))
  }

  /** The assignments and rule errors for the selected live individuals `ids`, shuffled into `shuffled`. */
  function Assignments(distribution: Option<seq<Rule>>, ids: seq<int>, shuffled: seq<int>): (r: (seq<Assignment>, seq<string>))
    requires |shuffled| == |ids|
  {
    if UnassignAll(distribution) then
      (seq(|ids|, i requires 0 <= i < |ids| => Assignment(ids[i], None)), [])
    else
      var active := ActiveRules(distribution.value);
      if active == [] then ([], [])
      else
        var d := Distribute(active, |shuffled|);
        (AtPositions(shuffled, d.0), d.1)
  }

  predicate Distinct(s: seq<int>) {
    forall i, j :: 0 <= i < j < |s| ==> s[i] != s[j]
  }

  /** Each individual appears in at most one assignment. */
  lemma AtMostOnce(distribution: Option<seq<Rule>>, ids: seq<int>, shuffled: seq<int>)
    requires |shuffled| == |ids| && Distinct(ids) && Distinct(shuffled)
    ensures var a := Assignments(distribution, ids, shuffled).0;
      forall i, j :: 0 <= i < j < |a| ==> a[i].individu != a[j].individu
  {
  }

  /** A permutation of distinct ids is itself free of repeats. */
  lemma {:induction false} PermutationDistinct(ids: seq<int>, shuffled: seq<int>)
    requires Distinct(ids) && multiset(shuffled) == multiset(ids)
    ensures Distinct(shuffled)
  {
    forall i, j | 0 <= i < j < |shuffled|
      ensures shuffled[i] != shuffled[j]
    {
      if shuffled[i] == shuffled[j] {
        var x := shuffled[i];
        assert shuffled == shuffled[..j] + [x] + shuffled[j + 1..];
        assert shuffled[..j] == shuffled[..i] + [x] + shuffled[i + 1..j];
        assert multiset(shuffled)[x] >= 2;
        DistinctCount(ids, x);
      }
    }
  }

  lemma {:induction false} DistinctCount(ids: seq<int>, x: int)
    requires Distinct(ids)
    ensures multiset(ids)[x] <= 1
  {
    if ids != [] {
      assert ids == [ids[0]] + ids[1..];
      assert Distinct(ids[1..]) by {
        forall i, j | 0 <= i < j < |ids[1..]|
          ensures ids[1..][i] != ids[1..][j]
        {
          assert ids[1..][i] == ids[i + 1] && ids[1..][j] == ids[j + 1];
        }
      }
      DistinctCount(ids[1..], x);
      if ids[0] == x {
        assert x !in ids[1..] by {
          forall k | 0 <= k < |ids[1..]|
            ensures ids[1..][k] != x
          {
            assert ids[1..][k] == ids[k + 1];
          }
        }
      }
    }
  }

  /** Every rule names a valid user. */
  predicate AllValid(shares: seq<Share>) {
    forall k :: 0 <= k < |shares| ==> shares[k].user.Some?
  }

  /** When every active rule names a valid user, the remainder takes every position from `cur` on. */
  lemma {:induction false} RemainderCovers(active: seq<Share>, n: nat, cur: nat, k: nat)
    requires active != [] && cur <= n && AllValid(active)
    ensures var r := Remainder(active, n, cur, k);
      |r| == n - cur && forall i :: 0 <= i < |r| ==> r[i].pos == cur + i
    decreases n - cur
  {
    if cur < n {
      RemainderCovers(active, n, cur + 1, k + 1);
    }
  }

  lemma {:induction false} SlicesNoErrors(rules: seq<Share>, total: int, n: nat, cur: nat)
    requires cur <= n && total > 0 && AllValid(rules)
    ensures Slices(rules, total, n, cur).errors == []
    decreases |rules|
  {
    if rules != [] {
      var rest := rules[1..];
      assert AllValid(rest) by {
        forall k | 0 <= k < |rest|
          ensures rest[k].user.Some?
        {
          assert rest[k] == rules[k + 1];
        }
      }
      var count := SliceSize(rules[0], total, n);
      var take: nat := if count <= 0 then 0 else Min(count, n - cur);
      SlicesNoErrors(rest, total, n, cur + take);
    }
  }

  /** With only valid rules, every selected individual is assigned exactly once and no error is reported. */
  lemma AllValidCovered(active: seq<Rule>, n: nat)
    requires active != [] && forall k :: 0 <= k < |active| ==> IsActive(active[k]) && RuleUser(active[k]).Some?
    ensures var d := Distribute(active, n);
      d.1 == [] && |d.0| == n && forall i :: 0 <= i < n ==> d.0[i].pos == i
  {
    TotalPositive(active);
    var shares := Shares(active);
    var s := Slices(shares, Total(active), n, 0);
    SlicesNoErrors(shares, Total(active), n, 0);
    RemainderCovers(shares, n, s.next, 0);
  }

  /** The slice loop: each rule in order pushes its run of the shuffled list; an invalid rule pushes an error instead. */
  method SliceLoop(shares: seq<Share>, total: int, shuffled: seq<int>)
    returns (assignments: seq<Assignment>, errors: seq<string>, cur: nat)
    requires total > 0
    ensures var t := Slices(shares, total, |shuffled|, 0);
      Mirrors(assignments, shuffled, t.steps) && errors == t.errors && cur == t.next
  {
    var n := |shuffled|;
    assignments, errors, cur := [], [], 0;
    ghost var steps: seq<Step> := [];
    var k := 0;
    while k < |shares|
      invariant 0 <= k <= |shares| && cur <= n
      invariant Mirrors(assignments, shuffled, steps)
      invariant var t := Slices(shares[k..], total, n, cur);
        Slices(shares, total, n, 0) == SliceOut(steps + t.steps, errors + t.errors, t.next)
    {
      var run, err, next, r := SliceRule(shares[k..], total, shuffled, cur);
      assert shares[k..][1..] == shares[k + 1..];
      ghost var t := Slices(shares[k + 1..], total, n, next);
      Associative(steps, r, t.steps);
      Associative(errors, err, t.errors);
      MirrorsAppend(assignments, steps, run, r, shuffled);
      assignments, errors, steps, cur := assignments + run, errors + err, steps + r, next;
      k := k + 1;
    }
    assert shares[k..] == [];
  }

  lemma Associative<T>(a: seq<T>, b: seq<T>, c: seq<T>)
    ensures a + (b + c) == (a + b) + c
  {
  }

  /** The body of the slice loop for the first rule of `shares`. */
  method SliceRule(shares: seq<Share>, total: int, shuffled: seq<int>, cur: nat)
    returns (run: seq<Assignment>, err: seq<string>, next: nat, ghost r: seq<Step>)
    requires shares != [] && cur <= |shuffled| && total > 0
    ensures cur <= next <= |shuffled| && Mirrors(run, shuffled, r)
    ensures var t := Slices(shares[1..], total, |shuffled|, next);
      Slices(shares, total, |shuffled|, cur) == SliceOut(r + t.steps, err + t.errors, t.next)
  {
    SlicesUnfold(shares, total, |shuffled|, cur);
    var rule := shares[0];
    if rule.user.None? {
      run, err, next, r := [], [InvalidRule(rule.rule)], cur, [];
      assert r + Slices(shares[1..], total, |shuffled|, next).steps == Slices(shares[1..], total, |shuffled|, next).steps;
    } else {
      var u := rule.user.value;
      var count := SliceSize(rule, total, |shuffled|);
      run, next := TakeRun(shuffled, cur, count, u);
      r := Run(cur, next - cur, u);
      err := [];
      assert err + Slices(shares[1..], total, |shuffled|, next).errors == Slices(shares[1..], total, |shuffled|, next).errors;
    }
  }

  /** One step of `Slices`. */
  lemma SlicesUnfold(rules: seq<Share>, total: int, n: nat, cur: nat)
    requires cur <= n && total > 0 && rules != []
    ensures var rule := rules[0];
      var count := SliceSize(rule, total, n);
      var take: nat := if count <= 0 then 0 else Min(count, n - cur);
      Slices(rules, total, n, cur)
        == if rule.user.None? then
             var t := Slices(rules[1..], total, n, cur);
             SliceOut(t.steps, [InvalidRule(rule.rule)] + t.errors, t.next)
           else
             var t := Slices(rules[1..], total, n, cur + take);
             SliceOut(Run(cur, take, rule.user.value) + t.steps, t.errors, t.next)
  {
  }

  /** The inner loop of one rule: at most `count` individuals from `cur`, never past the end. */
  method TakeRun(shuffled: seq<int>, cur: nat, count: int, u: Option<int>) returns (run: seq<Assignment>, next: nat)
    requires cur <= |shuffled|
    ensures next == cur + (if count <= 0 then 0 else Min(count, |shuffled| - cur))
    ensures Mirrors(run, shuffled, Run(cur, next - cur, u))
  {
    run := [];
    next := cur;
    var i := 0;
    while i < count && next < |shuffled|
      invariant next == cur + i && next <= |shuffled| && 0 <= i
      invariant count <= 0 ==> i == 0
      invariant count > 0 ==> i <= count
      invariant Mirrors(run, shuffled, Run(cur, i, u))
    {
      run := run + [Assignment(shuffled[next], u)];
      next := next + 1;
      i := i + 1;
    }
  }

  lemma MirrorsAppend(a1: seq<Assignment>, s1: seq<Step>, a2: seq<Assignment>, s2: seq<Step>, shuffled: seq<int>)
    requires Mirrors(a1, shuffled, s1) && Mirrors(a2, shuffled, s2)
    ensures Mirrors(a1 + a2, shuffled, s1 + s2)
  {
    assert forall i :: |s1| <= i < |s1 + s2| ==> (s1 + s2)[i] == s2[i - |s1|] && (a1 + a2)[i] == a2[i - |s1|];
  }

  /** The round-robin loop over the positions left after the slices. */
  method RemainderLoop(shares: seq<Share>, shuffled: seq<int>, start: nat)
    returns (assignments: seq<Assignment>)
    requires start <= |shuffled|
    ensures Mirrors(assignments, shuffled, Remainder(shares, |shuffled|, start, 0))
  {
    var n := |shuffled|;
    assignments := [];
    ghost var steps: seq<Step> := [];
    var cur := start;
    var k := 0;
    while cur < n && |shares| > 0
      invariant start <= cur <= n
      invariant Mirrors(assignments, shuffled, steps)
      invariant steps + Remainder(shares, n, cur, k) == Remainder(shares, n, start, 0)
      decreases n - cur
    {
      var user := shares[k % |shares|].user;
      if user.Some? {
        RemainderTake(shares, shuffled, assignments, steps, cur, k);
        assignments := assignments + [Assignment(shuffled[cur], user.value)];
        steps := steps + [Step(cur, user.value)];
      } else {
        RemainderUnfold(shares, n, cur, k);
      }
      cur := cur + 1;
      k := k + 1;
    }
  }

  /** A turn whose share names a user takes the current position for that user. */
  lemma RemainderTake(shares: seq<Share>, shuffled: seq<int>, assignments: seq<Assignment>, steps: seq<Step>, cur: nat, k: nat)
    requires cur < |shuffled| && shares != [] && shares[k % |shares|].user.Some?
    requires Mirrors(assignments, shuffled, steps)
    ensures var u := shares[k % |shares|].user.value;
      Mirrors(assignments + [Assignment(shuffled[cur], u)], shuffled, steps + [Step(cur, u)])
      && (steps + [Step(cur, u)]) + Remainder(shares, |shuffled|, cur + 1, k + 1) == steps + Remainder(shares, |shuffled|, cur, k)
  {
    var u := shares[k % |shares|].user.value;
    var step := Step(cur, u);
    var rest := Remainder(shares, |shuffled|, cur + 1, k + 1);
    RemainderUnfold(shares, |shuffled|, cur, k);
    MirrorsAppend(assignments, steps, [Assignment(shuffled[cur], u)], [step], shuffled);
    assert (steps + [step]) + rest == steps + ([step] + rest);
  }

  lemma RemainderUnfold(shares: seq<Share>, n: nat, cur: nat, k: nat)
    requires cur < n && shares != []
    ensures var u := shares[k % |shares|].user;
      Remainder(shares, n, cur, k)
        == (if u.Some? then [Step(cur, u.value)] else []) + Remainder(shares, n, cur + 1, k + 1)
  {
  }

  /** `assignments` are the steps applied to the shuffled list. */
  predicate Mirrors(assignments: seq<Assignment>, shuffled: seq<int>, steps: seq<Step>) {
    |assignments| == |steps|
    && forall i :: 0 <= i < |steps| ==> steps[i].pos < |shuffled| && assignments[i] == Assignment(shuffled[steps[i].pos], steps[i].user)
  }

  lemma MirrorsAtPositions(assignments: seq<Assignment>, shuffled: seq<int>, steps: seq<Step>)
    requires Mirrors(assignments, shuffled, steps)
    ensures assignments == AtPositions(shuffled, steps)
  {
  }

  /** How the handler builds its list of assignments and rule errors, with the loops of the source. */
  method ComputeAssignments(distribution: Option<seq<Rule>>, found: seq<int>, shuffled: seq<int>)
    returns (assignments: seq<Assignment>, errors: seq<string>)
    requires |shuffled| == |found|
    ensures (assignments, errors) == Assignments(distribution, found, shuffled)
  {
    if UnassignAll(distribution) {
      assignments, errors := [], [];
      var i := 0;
      while i < |found|
        invariant 0 <= i <= |found|
        invariant assignments == seq(i, j requires 0 <= j < i => Assignment(found[j], None))
      {
        assignments := assignments + [Assignment(found[i], None)];
        i := i + 1;
      }
      return;
    }
    var active := ActiveRules(distribution.value);
    if active == [] {
      return [], [];
    }
    TotalPositive(active);
    var shares := Shares(active);
    var cur, rest;
    assignments, errors, cur := SliceLoop(shares, Total(active), shuffled);
    rest := RemainderLoop(shares, shuffled, cur);
    ghost var t := Slices(shares, Total(active), |shuffled|, 0);
    MirrorsAppend(assignments, t.steps, rest, Remainder(shares, |shuffled|, cur, 0), shuffled);
    assignments := assignments + rest;
    MirrorsAtPositions(assignments, shuffled, Distribute(active, |shuffled|).0);
  }

  /** `String(x === undefined || x === null ? '' : x)` for the stored `en_charge`. */
  function EnChargeText(v: Json): (r: string)
    ensures v == JNull ==> r == []
    ensures v != JNull ==> r == Show(v)
  {
    if v == JNull then "" else Show(v)
  }

  /** `String(newUserId === null ? '' : newUserId)`. */
  function UserText(u: Option<int>): (r: string)
    ensures u.None? ==> r == []
    ensures u.Some? ==> r == IntToString(u.value)
  {
    if u.None? then "" else IntToString(u.value)
  }

  /** The column value written for a user. */
  function UserJson(u: Option<int>): (r: Json)
    ensures EnChargeText(r) == UserText(u)
  {
    if u.None? then JNull else JInt(u.value)
  }

  /** The tables, the number of rows changed and the errors, while assignments are applied. */
  datatype Applied = Applied(rows: map<int, Individu>, audit: seq<AuditRow>, updated: nat, errors: seq<string>)

  /**
   * What fails while the assignments are applied: `tx` holds the individuals
   * whose transaction throws, with the message, and `audit` those whose audit
   * insert throws, which is logged and skipped while the update still counts.
   */
  datatype Faults = Faults(tx: map<int, string>, audit: set<int>)

  /**
   * The faults the handler meets: a manager id naming no user makes the audit
   * insert of every found individual fail (the `utilisateur_id` foreign key).
   */
  function Logging(faults: Faults, manager: Json, userIds: set<int>, found: seq<int>): (r: Faults)
    ensures r.tx == faults.tx && faults.audit <= r.audit
    ensures Dangles(manager, userIds) ==> forall id :: id in found ==> id in r.audit
    ensures !Dangles(manager, userIds) ==> r == faults
  {
    if Dangles(manager, userIds) then faults.(audit := faults.audit + set id | id in found) else faults
  }

  function TransactionError(id: int, message: string): string {
    "Transaction error for individu " + IntToString(id) + ": " + message
  }

  /**
   * One assignment: skipped when the old and new values show the same text;
   * otherwise its own transaction, which fails with `faults.tx[id]` when that is
   * present, and which counts only when the `UPDATE` reaches a live row. Its
   * audit row is written unless the insert fails.
   */
  function ApplyOne(st: Applied, before: map<int, Json>, a: Assignment, manager: Json, action: string,
                    faults: Faults): (r: Applied)
  {
    var id := a.individu;
    var prevText := if id in before then EnChargeText(before[id]) else "";
    if prevText == UserText(a.user) then st
    else if id in faults.tx then st.(errors := st.errors + [TransactionError(id, faults.tx[id])])
    else if id in st.rows && !st.rows[id].deleted then
      Applied(st.rows[id := st.rows[id].(enCharge := UserJson(a.user))],
              st.audit + (if id in faults.audit then [] else [AuditRow(id, "en_charge", Some(prevText), UserText(a.user), manager, action, None)]),
              st.updated + 1, st.errors)
    else st
  }

  /** The assignments applied in order. */
  function ApplyAll(st: Applied, before: map<int, Json>, assignments: seq<Assignment>, manager: Json, action: string,
                    faults: Faults): (r: Applied)
    ensures r.rows.Keys == st.rows.Keys
    ensures forall id :: id in st.rows ==> r.rows[id].deleted == st.rows[id].deleted
    decreases |assignments|
  {
    if assignments == [] then st
    else
      var prefix := ApplyAll(st, before, assignments[..|assignments| - 1], manager, action, faults);
      ApplyOne(prefix, before, assignments[|assignments| - 1], manager, action, faults)
  }

  /**
   * Each counted update writes at most one audit row: exactly one when no
   * audit insert fails, none when every one fails. Earlier audit rows and
   * errors are kept, and no assignment is counted both as an update and as an error.
   */
  lemma {:induction false} ApplyCounts(st: Applied, before: map<int, Json>, assignments: seq<Assignment>, manager: Json,
                                       action: string, faults: Faults)
    ensures var r := ApplyAll(st, before, assignments, manager, action, faults);
      && r.updated >= st.updated && |st.audit| <= |r.audit| && |r.audit| - |st.audit| <= r.updated - st.updated
      && |r.errors| >= |st.errors| && (r.updated - st.updated) + (|r.errors| - |st.errors|) <= |assignments|
      && r.audit[..|st.audit|] == st.audit && r.errors[..|st.errors|] == st.errors
    ensures (forall k :: 0 <= k < |assignments| ==> assignments[k].individu !in faults.audit) ==>
      var r := ApplyAll(st, before, assignments, manager, action, faults);
      |r.audit| - |st.audit| == r.updated - st.updated
    ensures (forall k :: 0 <= k < |assignments| ==> assignments[k].individu in faults.audit) ==>
      ApplyAll(st, before, assignments, manager, action, faults).audit == st.audit
    decreases |assignments|
  {
    if assignments != [] {
      var init := assignments[..|assignments| - 1];
      assert forall k :: 0 <= k < |init| ==> init[k] == assignments[k];
      ApplyCounts(st, before, init, manager, action, faults);
    }
  }

  /** No assignment names `id`. */
  predicate Unnamed(assignments: seq<Assignment>, id: int) {
    forall k :: 0 <= k < |assignments| ==> assignments[k].individu != id
  }

  /** A row no assignment names is left as it was. */
  lemma {:induction false} ApplyFrame(st: Applied, before: map<int, Json>, assignments: seq<Assignment>, manager: Json,
                                      action: string, faults: Faults, id: int)
    requires id in st.rows && Unnamed(assignments, id)
    ensures ApplyAll(st, before, assignments, manager, action, faults).rows[id] == st.rows[id]
    decreases |assignments|
  {
    if assignments != [] {
      var init := assignments[..|assignments| - 1];
      assert forall k :: 0 <= k < |init| ==> init[k] == assignments[k];
      ApplyFrame(st, before, init, manager, action, faults, id);
      ApplyOneKeeps(ApplyAll(st, before, init, manager, action, faults), before, assignments[|assignments| - 1],
                    manager, action, faults, id);
    }
  }

  /** One assignment writes at most the row it names. */
  lemma ApplyOneKeeps(st: Applied, before: map<int, Json>, a: Assignment, manager: Json, action: string,
                      faults: Faults, id: int)
    requires id in st.rows && a.individu != id
    ensures ApplyOne(st, before, a, manager, action, faults).rows[id] == st.rows[id]
  {
  }

  predicate DistinctTargets(assignments: seq<Assignment>) {
    forall i, j :: 0 <= i < j < |assignments| ==> assignments[i].individu != assignments[j].individu
  }

  /** `before` is the `en_charge` read from the rows before anything is written. */
  predicate Snapshot(before: map<int, Json>, rows: map<int, Individu>) {
    forall id :: id in before ==> id in rows && before[id] == rows[id].enCharge
  }

  /**
   * When every individual is named at most once, a live individual whose
   * transaction does not fail ends up holding, as text, the user it was given.
   */
  lemma {:induction false} ApplyReaches(st: Applied, before: map<int, Json>, assignments: seq<Assignment>, manager: Json,
                                        action: string, faults: Faults, k: nat)
    requires DistinctTargets(assignments) && Snapshot(before, st.rows)
    requires k < |assignments|
    requires var id := assignments[k].individu; id in before && !st.rows[id].deleted && id !in faults.tx
    ensures var id := assignments[k].individu;
      EnChargeText(ApplyAll(st, before, assignments, manager, action, faults).rows[id].enCharge) == UserText(assignments[k].user)
    decreases |assignments|
  {
    var last := |assignments| - 1;
    if k == last {
      ApplyLastWrites(st, before, assignments, manager, action, faults);
    } else {
      var init := assignments[..last];
      DistinctTargetsPrefix(assignments, last);
      assert init[k] == assignments[k];
      ApplyReaches(st, before, init, manager, action, faults, k);
      ApplyLastKeeps(st, before, assignments, manager, action, faults, assignments[k].individu);
    }
  }

  /** The last assignment, naming no individual named before it, writes its user. */
  lemma ApplyLastWrites(st: Applied, before: map<int, Json>, assignments: seq<Assignment>, manager: Json,
                        action: string, faults: Faults)
    requires DistinctTargets(assignments) && Snapshot(before, st.rows) && assignments != []
    requires var id := assignments[|assignments| - 1].individu; id in before && !st.rows[id].deleted && id !in faults.tx
    ensures var a := assignments[|assignments| - 1];
      EnChargeText(ApplyAll(st, before, assignments, manager, action, faults).rows[a.individu].enCharge) == UserText(a.user)
  {
    var last := |assignments| - 1;
    var init := assignments[..last];
    var id := assignments[last].individu;
    assert Unnamed(init, id) by {
      forall j | 0 <= j < |init|
        ensures init[j].individu != id
      {
        assert init[j] == assignments[j];
      }
    }
    ApplyFrame(st, before, init, manager, action, faults, id);
    ApplyOneWrites(ApplyAll(st, before, init, manager, action, faults), before, assignments[last], manager, action, faults);
  }

  /** The last assignment leaves every other row as the earlier ones left it. */
  lemma ApplyLastKeeps(st: Applied, before: map<int, Json>, assignments: seq<Assignment>, manager: Json,
                       action: string, faults: Faults, id: int)
    requires assignments != [] && id in st.rows && assignments[|assignments| - 1].individu != id
    ensures ApplyAll(st, before, assignments, manager, action, faults).rows[id]
         == ApplyAll(st, before, assignments[..|assignments| - 1], manager, action, faults).rows[id]
  {
    var last := |assignments| - 1;
    ApplyOneKeeps(ApplyAll(st, before, assignments[..last], manager, action, faults), before, assignments[last],
                  manager, action, faults, id);
  }

  lemma DistinctTargetsPrefix(assignments: seq<Assignment>, n: nat)
    requires DistinctTargets(assignments) && n <= |assignments|
    ensures DistinctTargets(assignments[..n])
  {
    forall i, j | 0 <= i < j < n
      ensures assignments[..n][i].individu != assignments[..n][j].individu
    {
      assert assignments[..n][i] == assignments[i] && assignments[..n][j] == assignments[j];
    }
  }

  /** An assignment that reaches a live row leaves it showing the new user. */
  lemma ApplyOneWrites(st: Applied, before: map<int, Json>, a: Assignment, manager: Json, action: string,
                       faults: Faults)
    requires a.individu in before && a.individu in st.rows && before[a.individu] == st.rows[a.individu].enCharge
    requires !st.rows[a.individu].deleted && a.individu !in faults.tx
    ensures EnChargeText(ApplyOne(st, before, a, manager, action, faults).rows[a.individu].enCharge) == UserText(a.user)
  {
  }

  /** The loop over the assignments, against the `individus` and `individu_audit` tables of `store`. */
  method ApplyAssignments(store: IndividuStore, before: map<int, Json>, assignments: seq<Assignment>, manager: Json,
                          action: string, faults: Faults, errors0: seq<string>)
    returns (updated: nat, errors: seq<string>)
    modifies store
    ensures Applied(store.rows, store.audit, updated, errors)
      == ApplyAll(Applied(old(store.rows), old(store.audit), 0, errors0), before, assignments, manager, action, faults)
  {
    ghost var init := Applied(store.rows, store.audit, 0, errors0);
    updated, errors := 0, errors0;
    var i := 0;
    while i < |assignments|
      invariant 0 <= i <= |assignments|
      invariant Applied(store.rows, store.audit, updated, errors)
        == ApplyAll(init, before, assignments[..i], manager, action, faults)
    {
      ApplyAllStep(init, before, assignments, manager, action, faults, i);
      updated, errors := ApplyAssignment(store, before, assignments[i], manager, action, faults, updated, errors);
      i := i + 1;
    }
    assert assignments[..i] == assignments;
  }

  /** One iteration of the loop: the assignment's own transaction against `store`. */
  method ApplyAssignment(store: IndividuStore, before: map<int, Json>, a: Assignment, manager: Json, action: string,
                         faults: Faults, updated0: nat, errors0: seq<string>)
    returns (updated: nat, errors: seq<string>)
    modifies store
    ensures Applied(store.rows, store.audit, updated, errors)
      == ApplyOne(Applied(old(store.rows), old(store.audit), updated0, errors0), before, a, manager, action, faults)
  {
    updated, errors := updated0, errors0;
    var id := a.individu;
    var prevText := if id in before then EnChargeText(before[id]) else "";
    if prevText != UserText(a.user) {
      if id in faults.tx {
        errors := errors + [TransactionError(id, faults.tx[id])];
      } else if id in store.rows && !store.rows[id].deleted {
        store.rows := store.rows[id := store.rows[id].(enCharge := UserJson(a.user))];
        if id !in faults.audit {
          store.audit := store.audit + [AuditRow(id, "en_charge", Some(prevText), UserText(a.user), manager, action, None)];
        }
        updated := updated + 1;
      }
    }
  }

  /** One more assignment applied after a prefix. */
  lemma ApplyAllStep(st: Applied, before: map<int, Json>, assignments: seq<Assignment>, manager: Json, action: string,
                     faults: Faults, i: nat)
    requires i < |assignments|
    ensures ApplyAll(st, before, assignments[..i + 1], manager, action, faults)
      == ApplyOne(ApplyAll(st, before, assignments[..i], manager, action, faults), before, assignments[i], manager, action, faults)
  {
    assert assignments[..i + 1][..i] == assignments[..i];
  }

  /** The handler's reply: `success`, its message (or `error`) text, `updatedCount` and `errors`. */
  datatype MassResult = MassResult(success: bool, text: string, updatedCount: nat, errors: seq<string>)

  /** The reply once the assignments were applied; it fails only when there are errors and nothing was updated. */
  function Summary(s: Applied, attempts: nat): (r: MassResult)
    requires s.updated <= attempts
    ensures r.success <==> s.errors == [] || s.updated > 0
    ensures r.updatedCount == s.updated && r.errors == s.errors
  {
    if s.errors != [] then
      MassResult(s.updated > 0, "Assignment completed with " + NatToString(|s.errors|) + " errors out of "
                 + NatToString(attempts) + " attempts. " + NatToString(s.updated) + " successes.", s.updated, s.errors)
    else
      MassResult(true, NatToString(s.updated) + " individu(s) processed successfully. "
                 + NatToString(attempts - s.updated) + " individu(s) did not require update.", s.updated, [])
  }

  /** `oldEnChargeValues`: the `en_charge` of each individual found. */
  function Before(rows: map<int, Individu>, found: seq<int>): (r: map<int, Json>)
    ensures Snapshot(r, rows)
    ensures forall id :: id in found && id in rows ==> id in r
  {
    map id | id in found && id in rows :: rows[id].enCharge
  }

  /**
   * What `SELECT id, en_charge FROM individus WHERE id IN (…) AND deleted = 0`
   * returns for `ids`: each selected id of a live row, once, in some order.
   */
  predicate SelectedLive(rows: map<int, Individu>, ids: seq<int>, found: seq<int>) {
    && Distinct(found)
    && (forall id :: id in found ==> id in ids && id in rows && !rows[id].deleted)
    && (forall id :: id in ids && id in rows && !rows[id].deleted ==> id in found)
  }

  /** The `SELECT` returns nothing exactly when no selected id names a live row. */
  lemma NoneFound(rows: map<int, Individu>, ids: seq<int>, found: seq<int>)
    requires SelectedLive(rows, ids, found)
    ensures found == [] <==> forall id :: id in ids ==> id !in rows || rows[id].deleted
  {
    if found != [] {
      assert found[0] in found;
    }
  }

  function AuditAction(distribution: Option<seq<Rule>>): string {
    if UnassignAll(distribution) then "desattribution_masse_distrib" else "attribution_masse_distrib"
  }

  /**
   * `attribuerIndividusEnMasse`: the reply and the tables afterwards. `found`
   * is what the `SELECT` returns for `ids` (the live ones), `shuffled` its
   * shuffle, `faults` the transactions and audit inserts that throw, and
   * `userIds` the ids of the `users` table.
   */
  function Mass(rows: map<int, Individu>, audit: seq<AuditRow>, ids: seq<int>, manager: Option<Json>,
                distribution: Option<seq<Rule>>, found: seq<int>, shuffled: seq<int>, faults: Faults, userIds: set<int>)
    : (r: (MassResult, Applied))
    requires SelectedLive(rows, ids, found) && |shuffled| == |found|
    ensures ids == [] ==> r.0 == MassResult(false, "No individu selected.", 0, ["No individu selected."])
    ensures ids != [] && (manager.None? || manager == Some(JNull)) ==>
      r.0 == MassResult(false, "User ID performing the action not provided.", 0, ["Manager user ID missing."])
    ensures ids != [] && manager.Some? && manager != Some(JNull) && (forall id :: id in ids ==> id !in rows || rows[id].deleted) ==>
      r.0 == MassResult(false, "No valid individu found for assignment.", 0, ["No valid individu."])
    ensures ids == [] || manager.None? || manager == Some(JNull) || found == [] ==> r.1.rows == rows && r.1.audit == audit
    ensures !r.0.success ==> r.0.updatedCount == 0
  {
    NoneFound(rows, ids, found);
    if ids == [] then (MassResult(false, "No individu selected.", 0, ["No individu selected."]), Applied(rows, audit, 0, []))
    else if manager.None? || manager == Some(JNull) then
      (MassResult(false, "User ID performing the action not provided.", 0, ["Manager user ID missing."]), Applied(rows, audit, 0, []))
    else if found == [] then
      (MassResult(false, "No valid individu found for assignment.", 0, ["No valid individu."]), Applied(rows, audit, 0, []))
    else
      var (assignments, ruleErrors) := Assignments(distribution, found, shuffled);
      var init := Applied(rows, audit, 0, ruleErrors);
      var logging := Logging(faults, manager.value, userIds, found);
      var s := ApplyAll(init, Before(rows, found), assignments, manager.value, AuditAction(distribution), logging);
      ApplyCounts(init, Before(rows, found), assignments, manager.value, AuditAction(distribution), logging);
      (Summary(s, |assignments|), s)
  }

  /** The handler, with the loops of the source, against the tables of `store`. */
  method AttribuerEnMasse(store: IndividuStore, ids: seq<int>, manager: Option<Json>, distribution: Option<seq<Rule>>,
                          found: seq<int>, shuffled: seq<int>, faults: Faults)
    returns (res: MassResult)
    requires SelectedLive(store.rows, ids, found) && |shuffled| == |found|
    modifies store
    ensures var m := Mass(old(store.rows), old(store.audit), ids, manager, distribution, found, shuffled, faults, store.userIds);
      res == m.0 && store.rows == m.1.rows && store.audit == m.1.audit
  {
    if ids == [] {
      return MassResult(false, "No individu selected.", 0, ["No individu selected."]);
    }
    if manager.None? || manager == Some(JNull) {
      return MassResult(false, "User ID performing the action not provided.", 0, ["Manager user ID missing."]);
    }
    if found == [] {
      return MassResult(false, "No valid individu found for assignment.", 0, ["No valid individu."]);
    }
    var before := Before(store.rows, found);
    var assignments, ruleErrors := ComputeAssignments(distribution, found, shuffled);
    ghost var init := Applied(store.rows, store.audit, 0, ruleErrors);
    var logging := Logging(faults, manager.value, store.userIds, found);
    var updated, errors := ApplyAssignments(store, before, assignments, manager.value, AuditAction(distribution), logging, ruleErrors);
    ApplyCounts(init, before, assignments, manager.value, AuditAction(distribution), logging);
    res := Summary(Applied(store.rows, store.audit, updated, errors), |assignments|);
  }

  /** Every assignment names an individual that was found. */
  lemma AssignmentsFromFound(distribution: Option<seq<Rule>>, found: seq<int>, shuffled: seq<int>, k: nat)
    requires multiset(shuffled) == multiset(found) && |shuffled| == |found|
    requires k < |Assignments(distribution, found, shuffled).0|
    ensures Assignments(distribution, found, shuffled).0[k].individu in found
  {
    var a := Assignments(distribution, found, shuffled).0;
    if !UnassignAll(distribution) {
      assert a[k].individu in multiset(shuffled);
    }
  }

  /** The found individuals are distinct live rows of the table. */
  predicate FoundLive(rows: map<int, Individu>, found: seq<int>, shuffled: seq<int>) {
    Distinct(found) && multiset(shuffled) == multiset(found)
    && forall id :: id in found ==> id in rows && !rows[id].deleted
  }

  /** Past the early checks, the handler's tables are the assignments applied to the old ones. */
  lemma MassApplies(rows: map<int, Individu>, audit: seq<AuditRow>, ids: seq<int>, manager: Option<Json>,
                    distribution: Option<seq<Rule>>, found: seq<int>, shuffled: seq<int>, faults: Faults, userIds: set<int>)
    requires SelectedLive(rows, ids, found) && |shuffled| == |found|
    requires ids != [] && manager.Some? && manager != Some(JNull) && found != []
    ensures var (assignments, ruleErrors) := Assignments(distribution, found, shuffled);
      Mass(rows, audit, ids, manager, distribution, found, shuffled, faults, userIds).1
        == ApplyAll(Applied(rows, audit, 0, ruleErrors), Before(rows, found), assignments, manager.value,
                    AuditAction(distribution), Logging(faults, manager.value, userIds, found))
  {
  }

  /**
   * After the handler, each individual an assignment names shows that
   * assignment's user as its `en_charge`, unless its transaction failed.
   */
  lemma MassReaches(rows: map<int, Individu>, audit: seq<AuditRow>, ids: seq<int>, manager: Option<Json>,
                    distribution: Option<seq<Rule>>, found: seq<int>, shuffled: seq<int>, faults: Faults, userIds: set<int>, k: nat)
    requires SelectedLive(rows, ids, found) && FoundLive(rows, found, shuffled) && |shuffled| == |found|
    requires ids != [] && manager.Some? && manager != Some(JNull) && found != []
    requires k < |Assignments(distribution, found, shuffled).0|
    requires Assignments(distribution, found, shuffled).0[k].individu !in faults.tx
    ensures var a := Assignments(distribution, found, shuffled).0[k];
      var after := Mass(rows, audit, ids, manager, distribution, found, shuffled, faults, userIds).1.rows;
      a.individu in after && EnChargeText(after[a.individu].enCharge) == UserText(a.user)
  {
    var (assignments, ruleErrors) := Assignments(distribution, found, shuffled);
    MassApplies(rows, audit, ids, manager, distribution, found, shuffled, faults, userIds);
    PermutationDistinct(found, shuffled);
    AtMostOnce(distribution, found, shuffled);
    AssignmentsFromFound(distribution, found, shuffled, k);
    ApplyReaches(Applied(rows, audit, 0, ruleErrors), Before(rows, found), assignments, manager.value,
                 AuditAction(distribution), Logging(faults, manager.value, userIds, found), k);
  }

  /** An unassign-all run leaves every found individual whose transaction did not fail without anyone in charge. */
  lemma UnassignAllClears(rows: map<int, Individu>, audit: seq<AuditRow>, ids: seq<int>, manager: Option<Json>,
                          distribution: Option<seq<Rule>>, found: seq<int>, shuffled: seq<int>, faults: Faults, userIds: set<int>, i: nat)
    requires SelectedLive(rows, ids, found) && FoundLive(rows, found, shuffled) && |shuffled| == |found|
    requires ids != [] && manager.Some? && manager != Some(JNull) && found != []
    requires UnassignAll(distribution) && i < |found| && found[i] !in faults.tx
    ensures var after := Mass(rows, audit, ids, manager, distribution, found, shuffled, faults, userIds).1.rows;
      found[i] in after && EnChargeText(after[found[i]].enCharge) == ""
  {
    assert Assignments(distribution, found, shuffled).0[i] == Assignment(found[i], None);
    MassReaches(rows, audit, ids, manager, distribution, found, shuffled, faults, userIds, i);
  }

  /** A manager id naming no user leaves the audit table as it was, whatever was updated. */
  lemma UnknownManagerLogsNothing(rows: map<int, Individu>, audit: seq<AuditRow>, ids: seq<int>, manager: Option<Json>,
                                  distribution: Option<seq<Rule>>, found: seq<int>, shuffled: seq<int>, faults: Faults,
                                  userIds: set<int>)
    requires SelectedLive(rows, ids, found) && FoundLive(rows, found, shuffled) && |shuffled| == |found|
    requires manager.Some? && Dangles(manager.value, userIds)
    ensures Mass(rows, audit, ids, manager, distribution, found, shuffled, faults, userIds).1.audit == audit
  {
    if ids != [] && found != [] {
      var (assignments, ruleErrors) := Assignments(distribution, found, shuffled);
      var logging := Logging(faults, manager.value, userIds, found);
      forall k | 0 <= k < |assignments|
        ensures assignments[k].individu in logging.audit
      {
        AssignmentsFromFound(distribution, found, shuffled, k);
      }
      MassApplies(rows, audit, ids, manager, distribution, found, shuffled, faults, userIds);
      ApplyCounts(Applied(rows, audit, 0, ruleErrors), Before(rows, found), assignments, manager.value,
                  AuditAction(distribution), logging);
    }
  }

  /** With a known manager and no other failing audit insert, every counted update has its audit row. */
  lemma KnownManagerLogsEach(rows: map<int, Individu>, audit: seq<AuditRow>, ids: seq<int>, manager: Option<Json>,
                             distribution: Option<seq<Rule>>, found: seq<int>, shuffled: seq<int>, faults: Faults,
                             userIds: set<int>)
    requires SelectedLive(rows, ids, found) && |shuffled| == |found|
    requires manager.Some? && !Dangles(manager.value, userIds) && faults.audit == {}
    ensures var m := Mass(rows, audit, ids, manager, distribution, found, shuffled, faults, userIds);
      |m.1.audit| == |audit| + m.1.updated
  {
    if ids != [] && manager != Some(JNull) && found != [] {
      var (assignments, ruleErrors) := Assignments(distribution, found, shuffled);
      MassApplies(rows, audit, ids, manager, distribution, found, shuffled, faults, userIds);
      ApplyCounts(Applied(rows, audit, 0, ruleErrors), Before(rows, found), assignments, manager.value,
                  AuditAction(distribution), faults);
    }
  }

  /**
   * With a distribution whose every active rule names a valid user, each found
   * individual is named by exactly one assignment and no rule error is reported.
   */
  lemma AllValidAssignsEveryone(distribution: Option<seq<Rule>>, found: seq<int>, shuffled: seq<int>, id: int)
    requires multiset(shuffled) == multiset(found) && |shuffled| == |found|
    requires !UnassignAll(distribution) && ActiveRules(distribution.value) != []
    requires forall r :: r in ActiveRules(distribution.value) ==> RuleUser(r).Some?
    requires id in found
    ensures var (a, errors) := Assignments(distribution, found, shuffled);
      errors == [] && |a| == |found| && exists k :: 0 <= k < |a| && a[k].individu == id
  {
    var active := ActiveRules(distribution.value);
    AllValidCovered(active, |shuffled|);
    assert id in multiset(shuffled);
    var i :| 0 <= i < |shuffled| && shuffled[i] == id;
    var a := Assignments(distribution, found, shuffled).0;
    assert a[i].individu == id;
  }
}
