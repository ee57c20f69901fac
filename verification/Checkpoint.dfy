/**
 Checkpoint coordination: grouping what the providers of a bucket answer by MMR root,
 the floor of the on-chain snapshot, and the threshold for submitting.
 */
module Checkpoint {
  import opened Wrappers
  import opened Octets
  import opened Ordered

  type Account = nat
  type Root = Bytes
  type Signature = Bytes

  const U64_MAX := 0xFFFF_FFFF_FFFF_FFFF

  /** The root reported when no provider answered. */
  const ZERO_ROOT: Root := Zeros(32)

  function Zeros(n: nat): (zeros: Bytes)
    ensures |zeros| == n
  {
    if n == 0 then [] else [0] + Zeros(n - 1)
  }

  datatype Range = Range(startSeq: u64, leafCount: u64)

  datatype Response = Response(root: Root, range: Range, signature: Signature)

  /** A provider that was asked, and what it answered, if it did. */
  datatype Query = Query(account: Account, answer: Option<Response>)

  /** Providers with their responses, by root. */
  type Groups = map<Root, seq<(Account, Response)>>

  datatype Collection = Collection(
    root: Root, range: Range, signatures: seq<(Account, Signature)>,
    agreeing: seq<Account>, disagreeing: seq<(Account, Root)>, unreachable: seq<Account>)

  // ---- The floor ----

  /** 64-bit addition that stops at the largest number. */
  function SaturatingAdd(a: nat, b: nat): nat { if a + b > U64_MAX then U64_MAX else a + b }

  function End(r: Range): nat { SaturatingAdd(r.startSeq as nat, r.leafCount as nat) }

  /** Whether a response may take part: neither end of its range is behind the snapshot. */
  predicate WithinFloor(range: Range, floor: Option<Range>) {
    floor.Some? ==> !(range.startSeq < floor.value.startSeq || End(range) < End(floor.value))
  }

  predicate Usable(q: Query, floor: Option<Range>) {
    q.answer.Some? && WithinFloor(q.answer.value.range, floor)
  }

  // ---- Grouping ----

  /** The usable answers with one root, in the order of the providers. */
  function WithRoot(queries: seq<Query>, floor: Option<Range>, root: Root): (group: seq<(Account, Response)>)
    ensures forall m <- group :: m.1.root == root && WithinFloor(m.1.range, floor)
  {
    if queries == [] then []
    else
      var (before, q) := (queries[..|queries| - 1], queries[|queries| - 1]);
      WithRoot(before, floor, root)
        + if Usable(q, floor) && q.answer.value.root == root then [(q.account, q.answer.value)] else []
  }

  /** The providers without a usable answer, in order. */
  function Unusable(queries: seq<Query>, floor: Option<Range>): seq<Account> {
    if queries == [] then []
    else
      var (before, q) := (queries[..|queries| - 1], queries[|queries| - 1]);
      Unusable(before, floor) + if Usable(q, floor) then [] else [q.account]
  }

  /** `groups` has each root that was answered, with all its usable answers. */
  ghost predicate IsGrouping(queries: seq<Query>, floor: Option<Range>, groups: Groups) {
    && (forall root <- groups :: groups[root] == WithRoot(queries, floor, root) && groups[root] != [])
    && (forall root: Root {:trigger root in groups} :: root !in groups ==> WithRoot(queries, floor, root) == [])
  }

  function NewMember(q: Query, floor: Option<Range>, root: Root): seq<(Account, Response)> {
    if Usable(q, floor) && q.answer.value.root == root then [(q.account, q.answer.value)] else []
  }

  lemma OneMoreAnswer(queries: seq<Query>, floor: Option<Range>, q: Query)
    ensures Unusable(queries + [q], floor) == Unusable(queries, floor) + if Usable(q, floor) then [] else [q.account]
    ensures forall root ::
      WithRoot(queries + [q], floor, root) == WithRoot(queries, floor, root) + NewMember(q, floor, root)
  {
    hide WithinFloor;
    assert (queries + [q])[..|queries|] == queries;
  }

  /** `groups` with one more member in the group of its root, which may be new. */
  function Grouped(groups: Groups, root: Root, member: (Account, Response)): Groups {
    groups[root := (if root in groups then groups[root] else []) + [member]]
  }

  lemma NoGroups(floor: Option<Range>)
    ensures IsGrouping([], floor, map[]) && Unusable([], floor) == []
  {
  }

  lemma OneMoreInGroup(queries: seq<Query>, floor: Option<Range>, groups: Groups, q: Query)
    requires IsGrouping(queries, floor, groups)
    ensures Usable(q, floor) ==>
      q.answer.Some?
      && IsGrouping(queries + [q], floor, Grouped(groups, q.answer.value.root, (q.account, q.answer.value)))
    ensures !Usable(q, floor) ==> IsGrouping(queries + [q], floor, groups)
  {
    hide WithRoot, WithinFloor, Unusable;
    OneMoreAnswer(queries, floor, q);
  }

  /** Group the usable answers by root; a provider with another one counts as unreachable. */
  method GroupAnswers(queries: seq<Query>, floor: Option<Range>) returns (groups: Groups, unreachable: seq<Account>)
    ensures IsGrouping(queries, floor, groups)
    ensures unreachable == Unusable(queries, floor)
  {
    hide WithRoot, Unusable, Usable, IsGrouping;
    groups, unreachable := map[], [];
    NoGroups(floor);
    var i := 0;
    while i < |queries|
      invariant 0 <= i <= |queries|
      invariant IsGrouping(queries[..i], floor, groups)
      invariant unreachable == Unusable(queries[..i], floor)
    {
      var q := queries[i];
      assert queries[..i + 1] == queries[..i] + [q];
      OneMoreAnswer(queries[..i], floor, q);
      OneMoreInGroup(queries[..i], floor, groups, q);
      if Usable(q, floor) {
        groups := Grouped(groups, q.answer.value.root, (q.account, q.answer.value));
      } else {
        unreachable := unreachable + [q.account];
      }
      i := i + 1;
    }
    assert queries[..i] == queries;
  }

  lemma NoAnswers(floor: Option<Range>)
    ensures Unusable([], floor) == [] && forall root :: WithRoot([], floor, root) == []
  {
  }

  // ---- Choosing ----

  /** The order in which the groups are visited: any order, each root once. */
  ghost predicate IsOrder(order: seq<Root>, groups: Groups) {
    && Distinct(order)
    && (forall root :: root in order <==> root in groups)
  }

  /** The last of the largest groups in the order. */
  function Largest(order: seq<Root>, groups: Groups): (root: Root)
    requires order != [] && forall r <- order :: r in groups
    ensures root in order && forall r <- order :: |groups[r]| <= |groups[root]|
  {
    var last := order[|order| - 1];
    if |order| == 1 then last
    else
      var best := Largest(order[..|order| - 1], groups);
      if |groups[last]| >= |groups[best]| then last else best
  }

  function Accounts(group: seq<(Account, Response)>): (accounts: seq<Account>)
    ensures |accounts| == |group|
    ensures forall i | 0 <= i < |group| :: accounts[i] == group[i].0
  {
    if group == [] then [] else [group[0].0] + Accounts(group[1..])
  }

  function Signatures(group: seq<(Account, Response)>): (signatures: seq<(Account, Signature)>)
    ensures |signatures| == |group|
    ensures forall i | 0 <= i < |group| :: signatures[i] == (group[i].0, group[i].1.signature)
  {
    if group == [] then [] else [(group[0].0, group[0].1.signature)] + Signatures(group[1..])
  }

  /** The members of a group, with its root. */
  function Tagged(accounts: seq<Account>, root: Root): (tagged: seq<(Account, Root)>)
    ensures |tagged| == |accounts|
    ensures forall i | 0 <= i < |accounts| :: tagged[i] == (accounts[i], root)
  {
    if accounts == [] then [] else [(accounts[0], root)] + Tagged(accounts[1..], root)
  }

  /** The members of every group but the majority's. */
  function Others(order: seq<Root>, groups: Groups, majority: Root): seq<(Account, Root)>
    requires forall r <- order :: r in groups
  {
    if order == [] then []
    else
      var last := order[|order| - 1];
      Others(order[..|order| - 1], groups, majority)
        + if last == majority then [] else Tagged(Accounts(groups[last]), last)
  }

  /** The collection of grouped answers, when the groups are visited in this order. */
  function Collect(groups: Groups, order: seq<Root>, unreachable: seq<Account>): Collection
    requires forall r <- order :: r in groups && groups[r] != []
  {
    if order == [] then Collection(ZERO_ROOT, Range(0, 0), [], [], [], unreachable)
    else
      var root := Largest(order, groups);
      var group := groups[root];
      Collection(root, group[0].1.range, Signatures(group), Accounts(group), Others(order, groups, root), unreachable)
  }

  // ---- Submitting ----

  datatype Decision =
    | NotCollected
    | NoneAsked
    | AllUnreachable(providers: seq<Account>)
    | TooFewAgree(agreeing: nat, required: nat, disagreements: seq<(Account, Root)>)
    | Submit(root: Root, range: Range, signatures: seq<(Account, Signature)>, signers: seq<Account>)

  /** `percent` of `total`, rounded up. */
  function Required(total: nat, percent: nat): nat { (total * percent + 99) / 100 }

  function Total(c: Collection): nat { |c.agreeing| + |c.disagreeing| + |c.unreachable| }

  function Decide(c: Collection, percent: nat): Decision {
    if c.agreeing == [] then
      if c.unreachable == [] then NoneAsked else AllUnreachable(c.unreachable)
    else if |c.agreeing| < Required(Total(c), percent) then
      TooFewAgree(|c.agreeing|, Required(Total(c), percent), c.disagreeing)
    else Submit(c.root, c.range, c.signatures, c.agreeing)
  }

  /** What is submitted when the groups are visited in this order; a bucket without providers is an error. */
  function Round(queries: seq<Query>, floor: Option<Range>, groups: Groups, order: seq<Root>, percent: nat): Decision
    requires forall r <- order :: r in groups && groups[r] != []
  {
    if queries == [] then NotCollected else Decide(Collect(groups, order, Unusable(queries, floor)), percent)
  }

  /** How an attempt to submit a checkpoint ends. */
  datatype CheckpointResult =
    | Submitted(signers: seq<Account>)
    | InsufficientConsensus(agreeing: nat, required: nat, disagreements: seq<(Account, Root)>)
    | ProvidersUnreachable(providers: seq<Account>)
    | NoProviders
    | TransactionFailed

  /** The result of a decision; the chain may refuse what is submitted. */
  function ResultOf(d: Decision, accepted: bool): CheckpointResult {
    match d
    case NotCollected => TransactionFailed
    case NoneAsked => NoProviders
    case AllUnreachable(providers) => ProvidersUnreachable(providers)
    case TooFewAgree(agreeing, required, disagreements) => InsufficientConsensus(agreeing, required, disagreements)
    case Submit(_, _, _, signers) => if accepted then Submitted(signers) else TransactionFailed
  }

  // ---- Every provider is counted once ----

  function AllAccounts(queries: seq<Query>): multiset<Account> {
    if queries == [] then multiset{}
    else AllAccounts(queries[..|queries| - 1]) + multiset{queries[|queries| - 1].account}
  }

  function Tags(tagged: seq<(Account, Root)>): multiset<Account> {
    if tagged == [] then multiset{}
    else Tags(tagged[..|tagged| - 1]) + multiset{tagged[|tagged| - 1].0}
  }

  /** The usable answers whose root is in `order`. */
  function Members(queries: seq<Query>, floor: Option<Range>, order: seq<Root>): multiset<Account> {
    if order == [] then multiset{}
    else
      Members(queries, floor, order[..|order| - 1])
        + multiset(Accounts(WithRoot(queries, floor, order[|order| - 1])))
  }

  lemma {:induction false} AccountsAppend(group: seq<(Account, Response)>, m: (Account, Response))
    ensures Accounts(group + [m]) == Accounts(group) + [m.0]
    decreases |group|
  {
    if group != [] {
      assert (group + [m])[1..] == group[1..] + [m];
    }
  }

  lemma {:induction false} TagsAppend(xs: seq<(Account, Root)>, ys: seq<(Account, Root)>)
    ensures Tags(xs + ys) == Tags(xs) + Tags(ys)
    decreases |ys|
  {
    if ys == [] {
      assert xs + ys == xs;
    } else {
      assert (xs + ys)[..|xs + ys| - 1] == xs + ys[..|ys| - 1];
      TagsAppend(xs, ys[..|ys| - 1]);
    }
  }

  lemma {:induction false} TaggedTags(accounts: seq<Account>, root: Root)
    ensures Tags(Tagged(accounts, root)) == multiset(accounts)
    decreases |accounts|
  {
    if accounts != [] {
      var rest := accounts[1..];
      TaggedTags(rest, root);
      TagsAppend([(accounts[0], root)], Tagged(rest, root));
      assert [(accounts[0], root)][..0] == [];
      assert Tags([(accounts[0], root)]) == multiset{accounts[0]};
      assert accounts == [accounts[0]] + rest;
    }
  }

  /** `q` has a usable answer with one of these roots. */
  predicate AnswersIn(q: Query, floor: Option<Range>, roots: seq<Root>) {
    Usable(q, floor) && q.answer.value.root in roots
  }

  /** One more answer goes into exactly one group. */
  lemma {:induction false} OneMoreMember(queries: seq<Query>, floor: Option<Range>, order: seq<Root>, q: Query)
    requires Distinct(order)
    ensures Members(queries + [q], floor, order) == Members(queries, floor, order)
      + if AnswersIn(q, floor, order) then multiset{q.account} else multiset{}
    decreases |order|
  {
    hide WithinFloor, WithRoot, Accounts, Usable;
    if order != [] {
      var (init, last) := (order[..|order| - 1], order[|order| - 1]);
      OneMoreMember(queries, floor, init, q);
      GroupGrows(queries, floor, last, q);
      LastIsNew(order);
    }
  }

  lemma GroupGrows(queries: seq<Query>, floor: Option<Range>, root: Root, q: Query)
    ensures multiset(Accounts(WithRoot(queries + [q], floor, root))) ==
      multiset(Accounts(WithRoot(queries, floor, root)))
      + if AnswersIn(q, floor, [root]) then multiset{q.account} else multiset{}
  {
    hide WithinFloor, WithRoot, Accounts;
    OneMoreAnswer(queries, floor, q);
    assert WithRoot(queries, floor, root) + [] == WithRoot(queries, floor, root);
    if AnswersIn(q, floor, [root]) {
      AccountsAppend(WithRoot(queries, floor, root), (q.account, q.answer.value));
    }
  }

  lemma LastIsNew(order: seq<Root>)
    requires Distinct(order) && order != []
    ensures var (init, last) := (order[..|order| - 1], order[|order| - 1]);
      last !in init && forall root :: root in order <==> root in init || root == last
  {
  }

  lemma {:induction false} NoMembers(floor: Option<Range>, order: seq<Root>)
    ensures Members([], floor, order) == multiset{}
    decreases |order|
  {
    if order != [] {
      NoMembers(floor, order[..|order| - 1]);
    }
  }

  /** The groups and the unreachable providers are all the providers. */
  lemma {:induction false} GroupsPartition(queries: seq<Query>, floor: Option<Range>, order: seq<Root>)
    requires Distinct(order) && forall q <- queries :: Usable(q, floor) ==> AnswersIn(q, floor, order)
    ensures Members(queries, floor, order) + multiset(Unusable(queries, floor)) == AllAccounts(queries)
    decreases |queries|
  {
    hide WithinFloor, Usable;
    if queries == [] {
      NoMembers(floor, order);
    } else {
      var (before, q) := (queries[..|queries| - 1], queries[|queries| - 1]);
      assert queries == before + [q] && q in queries;
      GroupsPartition(before, floor, order);
      OneMoreMember(before, floor, order, q);
      OneMoreAnswer(before, floor, q);
    }
  }

  /** The majority's members and all others are the members of all groups. */
  lemma {:induction false} OthersLaw(
    queries: seq<Query>, floor: Option<Range>, groups: Groups, order: seq<Root>, majority: Root)
    requires Distinct(order)
    requires forall r <- order :: r in groups && groups[r] == WithRoot(queries, floor, r)
    ensures Members(queries, floor, order) == Tags(Others(order, groups, majority))
      + if majority in order then multiset(Accounts(WithRoot(queries, floor, majority))) else multiset{}
    decreases |order|
  {
    hide WithRoot, Accounts, Tags, Tagged;
    if order == [] {
      NoTags();
    } else {
      var (init, last) := (order[..|order| - 1], order[|order| - 1]);
      LastIsNew(order);
      OthersLaw(queries, floor, groups, init, majority);
      TaggedTags(Accounts(groups[last]), last);
      TagsAppend(Others(init, groups, majority), Tagged(Accounts(groups[last]), last));
      NoTags();
      TagsAppend(Others(init, groups, majority), []);
    }
  }

  lemma NoTags()
    ensures Tags([]) == multiset{}
  {
  }

  lemma {:induction false} AnsweredRootIsGrouped(queries: seq<Query>, floor: Option<Range>, q: Query)
    requires q in queries && Usable(q, floor)
    ensures WithRoot(queries, floor, q.answer.value.root) != []
    decreases |queries|
  {
    hide WithinFloor;
    var last := queries[|queries| - 1];
    if q != last {
      AnsweredRootIsGrouped(queries[..|queries| - 1], floor, q);
    }
  }

  /**
   Agreeing, disagreeing and unreachable partition the providers that were asked, in
   whatever order groups are visited.
   */
  lemma ProvidersPartition(queries: seq<Query>, floor: Option<Range>, groups: Groups, order: seq<Root>)
    requires IsGrouping(queries, floor, groups) && IsOrder(order, groups)
    ensures var c := Collect(groups, order, Unusable(queries, floor));
      && multiset(c.agreeing) + Tags(c.disagreeing) + multiset(c.unreachable) == AllAccounts(queries)
      && Total(c) == |queries|
  {
    hide WithRoot, Others, Accounts, Unusable, WithinFloor, Tags;
    forall q | q in queries ensures Usable(q, floor) ==> AnswersIn(q, floor, order) {
      if Usable(q, floor) {
        AnsweredRootIsGrouped(queries, floor, q);
      }
    }
    GroupsPartition(queries, floor, order);
    var c := Collect(groups, order, Unusable(queries, floor));
    if order == [] {
      NoTags();
    } else {
      OthersLaw(queries, floor, groups, order, c.root);
    }
    AccountCount(queries);
    TagCount(c.disagreeing);
  }

  lemma {:induction false} AccountCount(queries: seq<Query>)
    ensures |AllAccounts(queries)| == |queries|
    decreases |queries|
  {
    if queries != [] { AccountCount(queries[..|queries| - 1]); }
  }

  lemma {:induction false} TagCount(tagged: seq<(Account, Root)>)
    ensures |Tags(tagged)| == |tagged|
    decreases |tagged|
  {
    if tagged != [] { TagCount(tagged[..|tagged| - 1]); }
  }

  // ---- The threshold ----

  /** Answers with different roots are different answers. */
  lemma {:induction false} TwoGroups(queries: seq<Query>, floor: Option<Range>, one: Root, other: Root)
    requires one != other
    ensures |WithRoot(queries, floor, one)| + |WithRoot(queries, floor, other)| <= |queries|
    decreases |queries|
  {
    hide WithinFloor;
    if queries != [] {
      TwoGroups(queries[..|queries| - 1], floor, one, other);
    }
  }

  lemma RequiredIsAMajority(total: nat, percent: nat)
    requires percent >= 51 && total > 0
    ensures 2 * Required(total, percent) > total
  {
    assert total * percent >= total * 51;
  }

  /** With a threshold of at least 51 percent, what is submitted does not depend on the order of the groups. */
  lemma MajorityIsUnique(
    queries: seq<Query>, floor: Option<Range>, groups: Groups, one: seq<Root>, other: seq<Root>, percent: nat)
    requires IsGrouping(queries, floor, groups) && IsOrder(one, groups) && IsOrder(other, groups)
    requires percent >= 51 && Round(queries, floor, groups, one, percent).Submit?
    ensures Round(queries, floor, groups, other, percent) == Round(queries, floor, groups, one, percent)
  {
    hide WithRoot, Collect, Accounts, Signatures, Unusable, Required, Total, Usable;
    MajorityOf(queries, floor, groups, one);
    MajorityOf(queries, floor, groups, other);
    var (a, b) := (Collect(groups, one, Unusable(queries, floor)), Collect(groups, other, Unusable(queries, floor)));
    if one == [] {
      assert forall r :: r in groups <==> r in one;
    } else {
      assert one[0] in groups;
      if a.root != b.root {
        TwoGroups(queries, floor, a.root, b.root);
        RequiredIsAMajority(|queries|, percent);
      }
    }
  }

  /** The majority is a largest group, and its members agree. */
  lemma MajorityOf(queries: seq<Query>, floor: Option<Range>, groups: Groups, order: seq<Root>)
    requires IsGrouping(queries, floor, groups) && IsOrder(order, groups)
    ensures var c := Collect(groups, order, Unusable(queries, floor));
      && Total(c) == |queries|
      && (order == [] ==> c.agreeing == [])
      && (order != [] ==>
            && c.root in groups && groups[c.root] == WithRoot(queries, floor, c.root) != []
            && c.agreeing == Accounts(groups[c.root]) && c.signatures == Signatures(groups[c.root])
            && c.range == groups[c.root][0].1.range
            && forall r <- groups :: |WithRoot(queries, floor, r)| <= |WithRoot(queries, floor, c.root)|)
  {
    hide WithRoot, Others, Unusable, Usable, Accounts, Signatures, Total, WithinFloor;
    ProvidersPartition(queries, floor, groups, order);
    if order != [] {
      var root := Largest(order, groups);
      assert forall r <- groups :: r in order;
    }
  }

  /** Two providers with different roots: with at most 50 percent, the order decides what is submitted. */
  lemma OrderCanMatter(percent: nat, a: Root, b: Root)
    requires percent <= 50 && a != b
    ensures var queries := [Query(1, Some(Response(a, Range(0, 1), []))), Query(2, Some(Response(b, Range(0, 1), [])))];
      var groups: Groups := map[a := [(1, Response(a, Range(0, 1), []))], b := [(2, Response(b, Range(0, 1), []))]];
      && IsGrouping(queries, None, groups) && IsOrder([a, b], groups) && IsOrder([b, a], groups)
      && Round(queries, None, groups, [a, b], percent).Submit? && Round(queries, None, groups, [b, a], percent).Submit?
      && Round(queries, None, groups, [a, b], percent) != Round(queries, None, groups, [b, a], percent)
  {
    hide WithRoot, Others, Unusable, Accounts, Signatures, Total, Required, Largest;
    var queries := [Query(1, Some(Response(a, Range(0, 1), []))), Query(2, Some(Response(b, Range(0, 1), [])))];
    var groups: Groups := map[a := [(1, Response(a, Range(0, 1), []))], b := [(2, Response(b, Range(0, 1), []))]];
    TwoAnswers(a, b);
    LastOfTwo(groups, a, b);
    LastOfTwo(groups, b, a);
    MajorityOf(queries, None, groups, [a, b]);
    MajorityOf(queries, None, groups, [b, a]);
    OneOfTwo(percent);
  }

  lemma TwoAnswers(a: Root, b: Root)
    requires a != b
    ensures var queries := [Query(1, Some(Response(a, Range(0, 1), []))), Query(2, Some(Response(b, Range(0, 1), [])))];
      && WithRoot(queries, None, a) == [(1, Response(a, Range(0, 1), []))]
      && WithRoot(queries, None, b) == [(2, Response(b, Range(0, 1), []))]
      && forall r {:trigger WithRoot(queries, None, r)} :: r != a && r != b ==> WithRoot(queries, None, r) == []
  {
    hide WithRoot, Unusable;
    var (qa, qb) := (Query(1, Some(Response(a, Range(0, 1), []))), Query(2, Some(Response(b, Range(0, 1), []))));
    NoAnswers(None);
    OneMoreAnswer([], None, qa);
    OneMoreAnswer([qa], None, qb);
    assert [] + [qa] == [qa] && [qa] + [qb] == [qa, qb];
  }

  lemma LastOfTwo(groups: Groups, a: Root, b: Root)
    requires a in groups && b in groups && |groups[a]| == |groups[b]|
    ensures Largest([a, b], groups) == b
  {
    assert [a, b][..1] == [a];
  }

  lemma OneOfTwo(percent: nat)
    requires percent <= 50
    ensures Required(2, percent) <= 1
  {
  }

  /** Nothing that is submitted depends on the order of the groups. */
  ghost predicate OrderNeverMatters(percent: nat) {
    forall queries: seq<Query>, floor: Option<Range>, groups: Groups, one: seq<Root>, other: seq<Root>
      {:trigger IsGrouping(queries, floor, groups), IsOrder(one, groups), IsOrder(other, groups)} ::
      IsGrouping(queries, floor, groups) && IsOrder(one, groups) && IsOrder(other, groups)
      && Round(queries, floor, groups, one, percent).Submit?
      ==> Round(queries, floor, groups, other, percent) == Round(queries, floor, groups, one, percent)
  }

  /** The order never matters exactly from 51 percent on. */
  lemma ThresholdLaw(percent: nat)
    ensures OrderNeverMatters(percent) <==> percent >= 51
  {
    hide WithRoot, Collect, Decide, Unusable;
    if percent >= 51 {
      forall queries: seq<Query>, floor: Option<Range>, groups: Groups, one: seq<Root>, other: seq<Root>
        {:trigger IsGrouping(queries, floor, groups), IsOrder(one, groups), IsOrder(other, groups)}
        | IsGrouping(queries, floor, groups) && IsOrder(one, groups) && IsOrder(other, groups)
          && Round(queries, floor, groups, one, percent).Submit?
        ensures Round(queries, floor, groups, other, percent) == Round(queries, floor, groups, one, percent)
      {
        MajorityIsUnique(queries, floor, groups, one, other, percent);
      }
    } else {
      OrderCanMatter(percent, [0], [1]);
    }
  }

  /** A round with providers never ends with none: each is either in a group or unreachable. */
  lemma SomeProvider(queries: seq<Query>, floor: Option<Range>, groups: Groups, order: seq<Root>, percent: nat)
    requires IsGrouping(queries, floor, groups) && IsOrder(order, groups)
    ensures forall accepted :: ResultOf(Round(queries, floor, groups, order, percent), accepted) != NoProviders
  {
    hide WithRoot, Others, Signatures, Unusable, Required, Largest;
    ProvidersPartition(queries, floor, groups, order);
  }

  // ---- Runs ----

  /** The answers of one round, the order of its groups, and whether the chain took what was submitted. */
  datatype RoundInput = RoundInput(queries: seq<Query>, groups: Groups, order: seq<Root>, accepted: bool)

  /** The chain's snapshot after a round. */
  ghost predicate Advances(percent: nat, floor: Option<Range>, r: RoundInput, next: Option<Range>) {
    && IsGrouping(r.queries, floor, r.groups) && IsOrder(r.order, r.groups)
    && var d := Round(r.queries, floor, r.groups, r.order, percent);
    && next == if d.Submit? && r.accepted then Some(d.range) else floor
  }

  /** Only this manager checkpoints: `floors[i]` is the snapshot after `i` rounds. */
  ghost predicate IsRun(percent: nat, floors: seq<Option<Range>>, rounds: seq<RoundInput>) {
    && |floors| == |rounds| + 1
    && forall i | 0 <= i < |rounds| :: Advances(percent, floors[i], rounds[i], floors[i + 1])
  }

  /** Neither end of the range moves back. */
  predicate NotBehind(before: Option<Range>, after: Option<Range>) {
    before.Some? ==>
      && after.Some?
      && before.value.startSeq <= after.value.startSeq
      && End(before.value) <= End(after.value)
  }

  lemma RoundNotBehind(percent: nat, floor: Option<Range>, r: RoundInput, next: Option<Range>)
    requires Advances(percent, floor, r, next)
    ensures NotBehind(floor, next)
  {
    hide Others, Accounts, Signatures, Unusable, Required, Largest, End;
    var d := Round(r.queries, floor, r.groups, r.order, percent);
    if d.Submit? {
      var root := Largest(r.order, r.groups);
      assert r.groups[root] == WithRoot(r.queries, floor, root);
      assert r.groups[root][0] in r.groups[root];
    }
  }

  /** Over any run, neither the start of the checkpointed range nor its saturating end ever decreases. */
  lemma {:induction false} RangeNeverMovesBack(
    percent: nat, floors: seq<Option<Range>>, rounds: seq<RoundInput>, i: nat, j: nat)
    requires IsRun(percent, floors, rounds) && i <= j < |floors|
    ensures NotBehind(floors[i], floors[j])
    decreases j - i
  {
    hide Advances, End;
    if i < j {
      RangeNeverMovesBack(percent, floors, rounds, i, j - 1);
      RoundNotBehind(percent, floors[j - 1], rounds[j - 1], floors[j]);
    }
  }
}
