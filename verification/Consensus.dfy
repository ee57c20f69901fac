/**
 What a round of checkpoint coordination comes to, said of the answers of the providers
 alone: who counts, which root wins, when it is submitted and what is reported otherwise.
 */
module Consensus {
  import opened Wrappers
  import opened Checkpoint

  // ---- Single answers ----

  /** An answer may take part exactly when neither end of its range is behind; the end stops at the largest number. */
  lemma FloorMeaning(range: Range, floor: Option<Range>)
    ensures WithinFloor(range, floor) <==> NotBehind(floor, Some(range))
    ensures range.startSeq + range.leafCount <= U64_MAX ==> End(range) == range.startSeq + range.leafCount
    ensures range.startSeq + range.leafCount > U64_MAX ==> End(range) == U64_MAX
    ensures U64_MAX == 0x1_0000_0000_0000_0000 - 1
  {
  }

  /** The provider answered this root, and its range is not behind the snapshot. */
  predicate Backs(q: Query, floor: Option<Range>, root: Root) {
    && q.answer.Some? && q.answer.value.root == root
    && NotBehind(floor, Some(q.answer.value.range))
  }

  /** The provider did not answer, or its range is behind the snapshot. */
  predicate IsSilent(q: Query, floor: Option<Range>) {
    q.answer.None? || !NotBehind(floor, Some(q.answer.value.range))
  }

  lemma BacksOrSilent(q: Query, floor: Option<Range>)
    ensures IsSilent(q, floor) <==> !Usable(q, floor)
    ensures forall root :: Backs(q, floor, root) <==> Usable(q, floor) && q.answer.value.root == root
  {
    hide NotBehind, WithinFloor;
    if q.answer.Some? {
      FloorMeaning(q.answer.value.range, floor);
    }
  }

  /** How many providers back a root. */
  function Tally(queries: seq<Query>, floor: Option<Range>, root: Root): nat {
    if queries == [] then 0
    else
      Tally(queries[..|queries| - 1], floor, root) + if Backs(queries[|queries| - 1], floor, root) then 1 else 0
  }

  /** `at` are the places of the providers of this kind, in order. */
  ghost predicate Selects(queries: seq<Query>, at: seq<nat>, kind: Query -> bool) {
    && (forall i, j | 0 <= i < j < |at| :: at[i] < at[j])
    && (forall i | 0 <= i < |at| :: at[i] < |queries| && kind(queries[at[i]]))
    && (forall n: nat | n < |queries| && kind(queries[n]) :: n in at)
  }

  lemma SelectsMore(queries: seq<Query>, at: seq<nat>, kind: Query -> bool) returns (at': seq<nat>)
    requires queries != [] && Selects(queries[..|queries| - 1], at, kind)
    ensures Selects(queries, at', kind)
    ensures at' == at + if kind(queries[|queries| - 1]) then [|queries| - 1] else []
  {
    var n := |queries| - 1;
    at' := at + (if kind(queries[n]) then [n] else []);
    forall m: nat | m < |queries| && kind(queries[m]) ensures m in at' {
      if m < n {
        assert queries[..n][m] == queries[m];
      }
    }
    forall i | 0 <= i < |at'| ensures at'[i] < |queries| && kind(queries[at'[i]]) {
      if i < |at| {
        assert queries[..n][at[i]] == queries[at[i]];
      }
    }
  }

  lemma NothingSelected(kind: Query -> bool)
    ensures Selects([], [], kind) && AreAnswersAt([], [], [])
  {
  }

  /** `group` are the accounts and answers of the providers at these places. */
  ghost predicate AreAnswersAt(queries: seq<Query>, at: seq<nat>, group: seq<(Account, Response)>) {
    && |group| == |at|
    && forall i | 0 <= i < |at| ::
      at[i] < |queries| && Some(group[i].1) == queries[at[i]].answer && group[i].0 == queries[at[i]].account
  }

  /** The group of a root are the providers that back it, in order. */
  lemma {:induction false} GroupMeaning(queries: seq<Query>, floor: Option<Range>, root: Root) returns (at: seq<nat>)
    ensures Selects(queries, at, q => Backs(q, floor, root))
    ensures AreAnswersAt(queries, at, WithRoot(queries, floor, root))
    ensures |WithRoot(queries, floor, root)| == Tally(queries, floor, root)
    decreases |queries|
  {
    hide WithinFloor, Usable, Backs, AreAnswersAt, Selects;
    at := [];
    if queries == [] {
      NothingSelected(q => Backs(q, floor, root));
    } else {
      var (init, q) := (queries[..|queries| - 1], queries[|queries| - 1]);
      var before := GroupMeaning(init, floor, root);
      BacksOrSilent(q, floor);
      at := SelectsMore(queries, before, q => Backs(q, floor, root));
      AnswersMore(queries, before, WithRoot(init, floor, root));
      assert before + [] == before && WithRoot(init, floor, root) + [] == WithRoot(init, floor, root);
    }
  }

  lemma AnswersMore(queries: seq<Query>, at: seq<nat>, group: seq<(Account, Response)>)
    requires queries != [] && AreAnswersAt(queries[..|queries| - 1], at, group)
    ensures var (n, q) := (|queries| - 1, queries[|queries| - 1]);
      && AreAnswersAt(queries, at, group)
      && (q.answer.Some? ==> AreAnswersAt(queries, at + [n], group + [(q.account, q.answer.value)]))
  {
    var init := queries[..|queries| - 1];
    assert forall i | 0 <= i < |at| :: init[at[i]] == queries[at[i]];
  }

  /** The unreachable are the providers without an answer that counts, in order. */
  lemma {:induction false} UnusableMeaning(queries: seq<Query>, floor: Option<Range>) returns (at: seq<nat>)
    ensures Selects(queries, at, q => IsSilent(q, floor))
    ensures |Unusable(queries, floor)| == |at|
    ensures forall i | 0 <= i < |at| :: at[i] < |queries| && Unusable(queries, floor)[i] == queries[at[i]].account
    decreases |queries|
  {
    hide WithinFloor, Usable, IsSilent;
    at := [];
    if queries != [] {
      var (init, q) := (queries[..|queries| - 1], queries[|queries| - 1]);
      var before := UnusableMeaning(init, floor);
      BacksOrSilent(q, floor);
      at := SelectsMore(queries, before, q => IsSilent(q, floor));
      assert forall i | 0 <= i < |before| :: init[before[i]] == queries[before[i]];
    }
  }

  // ---- Who disagrees ----

  /** Some provider with this account backs this root, which is not the majority's. */
  ghost predicate Disagrees(queries: seq<Query>, floor: Option<Range>, majority: Root, x: (Account, Root)) {
    x.1 != majority && exists i | 0 <= i < |queries| :: queries[i].account == x.0 && Backs(queries[i], floor, x.1)
  }

  lemma {:induction false} OthersByGroup(order: seq<Root>, groups: Groups, majority: Root, x: (Account, Root))
    requires forall r <- order :: r in groups
    ensures x in Others(order, groups, majority) <==>
      x.1 in order && x.1 != majority && x.0 in Accounts(groups[x.1])
    decreases |order|
  {
    hide Accounts;
    if order != [] {
      var (init, last) := (order[..|order| - 1], order[|order| - 1]);
      OthersByGroup(init, groups, majority, x);
      TaggedHas(Accounts(groups[last]), last, x);
      assert order == init + [last];
    }
  }

  lemma TaggedHas(accounts: seq<Account>, root: Root, x: (Account, Root))
    ensures x in Tagged(accounts, root) <==> x.1 == root && x.0 in accounts
  {
    hide Tagged;
    var tagged := Tagged(accounts, root);
    if x.1 == root && x.0 in accounts {
      var i :| 0 <= i < |accounts| && accounts[i] == x.0;
      assert tagged[i] == x;
    }
  }

  lemma AccountsHas(queries: seq<Query>, floor: Option<Range>, root: Root, a: Account)
    ensures a in Accounts(WithRoot(queries, floor, root)) <==>
      exists i | 0 <= i < |queries| :: queries[i].account == a && Backs(queries[i], floor, root)
  {
    hide WithRoot, Accounts, Backs;
    var group := WithRoot(queries, floor, root);
    var at := GroupMeaning(queries, floor, root);
    if a in Accounts(group) {
      var i :| 0 <= i < |group| && Accounts(group)[i] == a;
      assert queries[at[i]].account == a;
    }
    if i :| 0 <= i < |queries| && queries[i].account == a && Backs(queries[i], floor, root) {
      assert i in at;
      var j :| 0 <= j < |at| && at[j] == i;
      assert Accounts(group)[j] == a;
    }
  }

  // ---- A round ----

  /** `n` is `percent` percent of `total`, rounded up. */
  predicate IsShare(n: nat, total: nat, percent: nat) {
    100 * n >= total * percent && (n == 0 || 100 * (n - 1) < total * percent)
  }

  /** Most providers back this root; no other is backed by more. */
  ghost predicate IsMajority(queries: seq<Query>, floor: Option<Range>, root: Root) {
    && Tally(queries, floor, root) > 0
    && forall other: Root :: Tally(queries, floor, other) <= Tally(queries, floor, root)
  }

  /** The decision to submit is for the providers at these places, which are all that back the root. */
  ghost predicate SubmitsFor(queries: seq<Query>, floor: Option<Range>, d: Decision, at: seq<nat>) {
    && d.Submit? && IsMajority(queries, floor, d.root)
    && Selects(queries, at, q => Backs(q, floor, d.root))
    && at != [] && |d.signers| == |at| == |d.signatures|
    && (forall i | 0 <= i < |at| :: at[i] < |queries| && queries[at[i]].answer.Some?)
    && d.range == queries[at[0]].answer.value.range
    && forall i | 0 <= i < |at| ::
      && d.signers[i] == queries[at[i]].account
      && d.signatures[i] == (queries[at[i]].account, queries[at[i]].answer.value.signature)
  }

  lemma RequiredIsShare(total: nat, percent: nat)
    ensures IsShare(Required(total, percent), total, percent)
  {
  }

  lemma SharesAreOne(m: nat, n: nat, total: nat, percent: nat)
    requires IsShare(m, total, percent) && IsShare(n, total, percent)
    ensures m == n
  {
  }

  /** Nobody counts, or the group that is chosen is that of a majority. */
  lemma ChosenIsMajority(queries: seq<Query>, floor: Option<Range>, groups: Groups, order: seq<Root>)
    requires IsGrouping(queries, floor, groups) && IsOrder(order, groups) && order != []
    ensures var c := Collect(groups, order, Unusable(queries, floor));
      && IsMajority(queries, floor, c.root)
      && |c.agreeing| == Tally(queries, floor, c.root)
  {
    hide WithRoot, Collect, Accounts, Signatures, Unusable, Tally, Backs;
    MajorityOf(queries, floor, groups, order);
    var c := Collect(groups, order, Unusable(queries, floor));
    var own := GroupMeaning(queries, floor, c.root);
    forall other: Root ensures Tally(queries, floor, other) <= Tally(queries, floor, c.root) {
      var at := GroupMeaning(queries, floor, other);
    }
  }

  lemma NobodyCounts(queries: seq<Query>, floor: Option<Range>, groups: Groups, order: seq<Root>)
    requires IsGrouping(queries, floor, groups) && IsOrder(order, groups)
    ensures order == [] <==> forall q <- queries :: IsSilent(q, floor)
  {
    hide WithRoot, Backs, IsSilent, Usable;
    forall q | q in queries ensures order == [] ==> IsSilent(q, floor) {
      BacksOrSilent(q, floor);
      if Usable(q, floor) {
        AnswerHasGroup(queries, floor, groups, order, q);
      }
    }
    if order != [] {
      var root := order[0];
      assert root in groups;
      var at := GroupMeaning(queries, floor, root);
      var q := queries[at[0]];
      BacksOrSilent(q, floor);
      assert q in queries;
    }
  }

  lemma AnswerHasGroup(queries: seq<Query>, floor: Option<Range>, groups: Groups, order: seq<Root>, q: Query)
    requires IsGrouping(queries, floor, groups) && IsOrder(order, groups) && q in queries && Usable(q, floor)
    ensures order != []
  {
    hide WithRoot;
    AnsweredRootIsGrouped(queries, floor, q);
    assert q.answer.value.root in groups;
  }

  /**
   The outcome of a round. Without providers nothing is collected; if nobody counts, all
   are unreachable; if the majority is less than the threshold, that is reported with
   the number that is required and those that disagree; otherwise it is submitted.
   */
  lemma RoundMeaning(queries: seq<Query>, floor: Option<Range>, groups: Groups, order: seq<Root>, percent: nat)
    returns (root: Root, at: seq<nat>)
    requires IsGrouping(queries, floor, groups) && IsOrder(order, groups)
    ensures var d := Round(queries, floor, groups, order, percent);
      if queries == [] then d == NotCollected
      else if forall q <- queries :: IsSilent(q, floor)
      then d.AllUnreachable? && |d.providers| == |queries|
           && forall i | 0 <= i < |queries| :: d.providers[i] == queries[i].account
      else
        && IsMajority(queries, floor, root)
        && if 100 * Tally(queries, floor, root) < |queries| * percent
           then
             && d.TooFewAgree? && d.agreeing == Tally(queries, floor, root) && IsShare(d.required, |queries|, percent)
             && forall x :: x in d.disagreements <==> Disagrees(queries, floor, root, x)
           else SubmitsFor(queries, floor, d, at) && d.root == root
  {
    hide WithRoot, Accounts, Signatures, Unusable, Tally, Backs, IsSilent, Usable, Largest, Others, IsMajority;
    var c := Collect(groups, order, Unusable(queries, floor));
    root, at := c.root, [];
    NobodyCounts(queries, floor, groups, order);
    ProvidersPartition(queries, floor, groups, order);
    if order == [] {
      var silent := UnusableMeaning(queries, floor);
      AllSelected(queries, silent, floor);
    } else {
      ChosenIsMajority(queries, floor, groups, order);
      MajorityOf(queries, floor, groups, order);
      RequiredIsShare(|queries|, percent);
      at := GroupMeaning(queries, floor, root);
      forall x: (Account, Root) ensures x in c.disagreeing <==> Disagrees(queries, floor, root, x) {
        OthersByGroup(order, groups, root, x);
        AccountsHas(queries, floor, x.1, x.0);
      }
    }
  }

  lemma AllSelected(queries: seq<Query>, at: seq<nat>, floor: Option<Range>)
    requires Selects(queries, at, q => IsSilent(q, floor)) && forall q <- queries :: IsSilent(q, floor)
    ensures |at| == |queries| && forall i | 0 <= i < |at| :: at[i] == i
  {
    hide IsSilent;
    assert forall n: nat | n < |queries| :: n in at;
    FillsUp(at, |queries|);
  }

  lemma {:induction false} AtLeast(at: seq<nat>, i: nat)
    requires i < |at| && forall i, j | 0 <= i < j < |at| :: at[i] < at[j]
    ensures i <= at[i]
    decreases i
  {
    if i > 0 {
      AtLeast(at, i - 1);
    }
  }

  lemma {:induction false} FillsUp(at: seq<nat>, n: nat)
    requires forall i, j | 0 <= i < j < |at| :: at[i] < at[j]
    requires forall i | 0 <= i < |at| :: at[i] < n
    requires forall m: nat | m < n :: m in at
    ensures |at| == n && forall i | 0 <= i < |at| :: at[i] == i
    decreases n
  {
    if at != [] {
      AtLeast(at, |at| - 1);
    }
    if n > 0 {
      assert n - 1 in at;
      var i :| 0 <= i < |at| && at[i] == n - 1;
      assert i == |at| - 1;
      forall m: nat | m < n - 1 ensures m in at[..i] {
        assert m in at;
      }
      FillsUp(at[..i], n - 1);
    }
  }

  /** How an attempt is reported: as its decision says, or as a failed transaction. */
  lemma ReportMeaning(d: Decision, accepted: bool)
    ensures ResultOf(d, accepted).Submitted? <==> d.Submit? && accepted
    ensures ResultOf(d, accepted).Submitted? ==> ResultOf(d, accepted).signers == d.signers
    ensures ResultOf(d, accepted) == TransactionFailed <==> d.NotCollected? || (d.Submit? && !accepted)
    ensures forall providers :: ResultOf(d, accepted) == ProvidersUnreachable(providers) <==>
      d == AllUnreachable(providers)
    ensures forall agreeing: nat, required: nat, others: seq<(Account, Root)> ::
      ResultOf(d, accepted) == InsufficientConsensus(agreeing, required, others)
      <==> d == TooFewAgree(agreeing, required, others)
  {
  }
}
