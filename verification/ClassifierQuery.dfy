/** Queries on the classifier of `lib/classifier.c`: lookup, exact find and overlap, each
    against a definition over the plain set of stored rules. */
module ClassifierQuery {
  import opened Wrappers
  import opened FlowMatch
  import opened Classifier

  // ---- Lookup ----

  /** `best` is a matching rule of highest priority in the tables, or there is none. */
  ghost predicate HighestMatch(tables: seq<ClsTable>, flow: Flow, best: Option<Rule>) {
    match best
    case None => forall q | Stores(tables, q) :: !Matches(q, flow)
    case Some(b) =>
      Stores(tables, b) && Matches(b, flow) && forall q | Stores(tables, q) && Matches(q, flow) :: q.priority <= b.priority
  }

  lemma OneTable(t: ClsTable, q: Rule)
    ensures Stores([t], q) <==> InTable(t, q)
  {
    assert [t][0] == t;
  }

  /** Within a table the list of the masked flow holds exactly the matching rules. */
  lemma MatchingList(t: ClsTable, j: nat, flow: Flow)
    requires ValidHeads(t) && j < |t.heads| && t.heads[j][0].flow == Zero(flow, t.wc)
    ensures HighestMatch([t], flow, Some(t.heads[j][0]))
  {
    var l := t.heads[j];
    MatchesIsZeroed(l[0], flow);
    OneTable(t, l[0]);
    forall q | Stores([t], q) && Matches(q, flow) ensures q.priority <= l[0].priority {
      OneTable(t, q);
      TableRuleZeroed(t, q);
      MatchesIsZeroed(q, flow);
      ListOf(t, j, q);
      var k :| 0 <= k < |l| && l[k] == q;
    }
  }

  lemma TableRuleZeroed(t: ClsTable, q: Rule)
    requires ValidHeads(t) && InTable(t, q)
    ensures Zeroed(q) && q.wc == t.wc
    ensures exists j | 0 <= j < |t.heads| :: t.heads[j][0].flow == q.flow
  {
    var j :| 0 <= j < |t.heads| && q in t.heads[j];
  }

  lemma NoMatchingList(t: ClsTable, flow: Flow)
    requires ValidHeads(t) && forall j | 0 <= j < |t.heads| :: t.heads[j][0].flow != Zero(flow, t.wc)
    ensures HighestMatch([t], flow, None)
  {
    forall q | Stores([t], q) ensures !Matches(q, flow) {
      OneTable(t, q);
      TableRuleZeroed(t, q);
      MatchesIsZeroed(q, flow);
    }
  }

  lemma CatchallFlow(t: ClsTable, flow: Flow)
    requires ValidTable(t) && t.catchall
    ensures t.heads[0][0].flow == Zero(flow, t.wc)
  {
    var f := t.heads[0][0].flow;
    assert Zeroed(t.heads[0][0]);
    forall i | 0 <= i < BITS ensures f[i] == Zero(flow, t.wc)[i] {
      assert Zero(f, t.wc)[i] == f[i];
    }
  }

  /** find_match */
  method FindMatch(t: ClsTable, flow: Flow) returns (r: Option<Rule>)
    requires ValidTable(t)
    ensures HighestMatch([t], flow, r)
  {
    if t.catchall {
      CatchallFlow(t, flow);
      MatchingList(t, 0, flow);
      return Some(t.heads[0][0]);
    }
    var j := FindEqual(t, Zero(flow, t.wc));
    if j < 0 {
      NoMatchingList(t, flow);
      return None;
    }
    MatchingList(t, j, flow);
    return Some(t.heads[j][0]);
  }

  lemma BetterOf(tables: seq<ClsTable>, k: nat, flow: Flow, best: Option<Rule>, r: Option<Rule>)
    requires k < |tables|
    requires HighestMatch(tables[..k], flow, best)
    requires HighestMatch([tables[k]], flow, r)
    ensures HighestMatch(tables[..k + 1], flow,
                         if r.Some? && (best.None? || r.value.priority > best.value.priority) then r else best)
  {
    assert tables[..k + 1] == tables[..k] + [tables[k]];
    forall q ensures Stores(tables[..k + 1], q) <==> Stores([tables[k]], q) || Stores(tables[..k], q) {
      AddedTableRules(tables[..k], tables[k], q);
      OneTable(tables[k], q);
    }
  }

  /** classifier_lookup: a matching rule of highest priority, or NULL exactly when no stored
      rule matches. */
  method Lookup(cls: FlowClassifier, flow: Flow) returns (best: Option<Rule>)
    requires cls.Valid()
    ensures HighestMatch(cls.tables, flow, best)
  {
    best := None;
    var tables := cls.tables;
    for k := 0 to |tables|
      invariant HighestMatch(tables[..k], flow, best)
    {
      assert TableAt(tables, k);
      var r := FindMatch(tables[k], flow);
      BetterOf(tables, k, flow, best, r);
      if r.Some? && (best.None? || r.value.priority > best.value.priority) {
        best := r;
      }
    }
    assert tables[..|tables|] == tables;
  }

  // ---- Lookup after any run of updates ----

  datatype Update = Replacing(rule: Rule) | Removing(rule: Rule)

  /** The set of rules a client has installed after one more update. */
  function Updated(rules: set<Rule>, u: Update): set<Rule> {
    match u
    case Replacing(r) => (set q | q in rules && !SameKey(q, r)) + {r}
    case Removing(r) => rules - {r}
  }

  /** What the classifier asks of its clients: rules have zeroed wildcards, and only
      installed rules are removed. */
  predicate Legal(rules: set<Rule>, updates: seq<Update>)
    decreases |updates|
  {
    updates == [] ||
    (&& (if updates[0].Replacing? then Zeroed(updates[0].rule) else updates[0].rule in rules)
     && Legal(Updated(rules, updates[0]), updates[1..]))
  }

  function Installed(rules: set<Rule>, updates: seq<Update>): set<Rule>
    decreases |updates|
  {
    if updates == [] then rules else Installed(Updated(rules, updates[0]), updates[1..])
  }

  predicate UniqueKeys(rules: set<Rule>) {
    forall q, r | q in rules && r in rules && SameKey(q, r) :: q == r
  }

  lemma ReplacingSize(rules: set<Rule>, r: Rule, displaced: Option<Rule>)
    requires UniqueKeys(rules)
    requires displaced.Some? ==> displaced.value in rules && SameKey(displaced.value, r)
    requires displaced.None? ==> forall q | q in rules :: !SameKey(q, r)
    ensures UniqueKeys(Updated(rules, Replacing(r)))
    ensures |Updated(rules, Replacing(r))| == |rules| + if displaced.None? then 1 else 0
  {
    var kept := set q | q in rules && !SameKey(q, r);
    assert r !in kept;
    if displaced.None? {
      assert kept == rules;
    } else {
      assert kept == rules - {displaced.value};
    }
  }

  /** The classifier holds exactly `rules`, one for each key, and counts them. */
  ghost predicate Reflects(tables: seq<ClsTable>, n: nat, rules: set<Rule>) {
    (forall q :: Stores(tables, q) <==> q in rules) && UniqueKeys(rules) && n == |rules|
  }

  method ApplyUpdate(cls: FlowClassifier, u: Update, ghost rules: set<Rule>)
    requires cls.Valid() && Reflects(cls.tables, cls.nRules, rules)
    requires if u.Replacing? then Zeroed(u.rule) else u.rule in rules
    modifies cls
    ensures cls.Valid() && Reflects(cls.tables, cls.nRules, Updated(rules, u))
  {
    match u {
      case Replacing(r) =>
        var displaced := cls.Replace(r);
        ReplacingSize(rules, r, displaced);
      case Removing(r) =>
        cls.Remove(r);
    }
  }

  /** After any legal run of replace and remove from an empty classifier, a lookup agrees
      with a scan of all installed rules, and n_rules is their number. */
  method LookupAfter(updates: seq<Update>, flow: Flow) returns (best: Option<Rule>, count: nat)
    requires Legal({}, updates)
    ensures count == |Installed({}, updates)|
    ensures best.None? ==> forall q | q in Installed({}, updates) :: !Matches(q, flow)
    ensures best.Some? ==>
              && best.value in Installed({}, updates) && Matches(best.value, flow)
              && forall q | q in Installed({}, updates) && Matches(q, flow) :: q.priority <= best.value.priority
  {
    var cls := new FlowClassifier();
    ghost var rules: set<Rule> := {};
    var n := 0;
    while n < |updates|
      invariant n <= |updates| && fresh(cls) && cls.Valid() && Reflects(cls.tables, cls.nRules, rules)
      invariant Legal(rules, updates[n..]) && Installed(rules, updates[n..]) == Installed({}, updates)
    {
      assert updates[n..][0] == updates[n] && updates[n..][1..] == updates[n + 1..];
      ApplyUpdate(cls, updates[n], rules);
      rules := Updated(rules, updates[n]);
      n := n + 1;
    }
    assert updates[n..] == [];
    best := Lookup(cls, flow);
    count := cls.nRules;
  }

  // ---- Exact find and overlap ----

  /** classifier_find_rule_exactly */
  method FindRuleExactly(cls: FlowClassifier, target: Rule) returns (r: Option<Rule>)
    requires cls.Valid()
    ensures r.Some? ==> Stores(cls.tables, r.value) && SameKey(r.value, target)
    ensures r.None? ==> forall q | Stores(cls.tables, q) :: !SameKey(q, target)
  {
    var tables := cls.tables;
    var i := cls.FindTable(target.wc);
    if i < 0 {
      forall q | Stores(tables, q) ensures !SameKey(q, target) {
        HasTable(tables, q);
      }
      return None;
    }
    assert TableAt(tables, i);
    var j := FindEqual(tables[i], target.flow);
    if j < 0 {
      forall q | Stores(tables, q) ensures !SameKey(q, target) {
        RuleTable(tables, i, q);
        if InTable(tables[i], q) {
          TableRuleZeroed(tables[i], q);
        }
      }
      return None;
    }
    var l := tables[i].heads[j];
    forall q ensures q in l <==> Stores(tables, q) && q.wc == target.wc && q.flow == target.flow {
      RuleTable(tables, i, q);
      ListOf(tables[i], j, q);
    }
    var k := 0;
    while k < |l|
      invariant 0 <= k <= |l|
      invariant forall m | 0 <= m < k :: l[m].priority > target.priority
    {
      if target.priority >= l[k].priority {
        if target.priority == l[k].priority {
          assert l[k] in l;
          return Some(l[k]);
        }
        return None;
      }
      k := k + 1;
    }
    return None;
  }

  /** A stored rule of the same priority shares a packet with `target`. */
  ghost predicate OverlapsWith(r: Rule, target: Rule) {
    r.priority == target.priority && exists f: Flow :: Matches(target, f) && Matches(r, f)
  }

  method OverlapsInList(l: RuleList, wc: Mask, target: Rule) returns (b: bool)
    requires ValidList(l, wc)
    ensures b <==> exists r | r in l :: OverlapsWith(r, target)
  {
    var m := Combine(target.wc, wc);
    for k := 0 to |l|
      invariant forall i | 0 <= i < k :: !OverlapsWith(l[i], target)
    {
      OverlapIsSharedPacket(target, l[k]);
      if l[k].priority == target.priority && EqualExcept(target.flow, l[k].flow, m) {
        assert l[k] in l && OverlapsWith(l[k], target);
        return true;
      }
    }
    return false;
  }

  method OverlapsInTable(t: ClsTable, target: Rule) returns (b: bool)
    requires ValidTable(t)
    ensures b <==> exists r | InTable(t, r) :: OverlapsWith(r, target)
  {
    for j := 0 to |t.heads|
      invariant forall i, r | 0 <= i < j && r in t.heads[i] :: !OverlapsWith(r, target)
    {
      var found := OverlapsInList(t.heads[j], t.wc, target);
      if found {
        ghost var r :| r in t.heads[j] && OverlapsWith(r, target);
        assert InTable(t, r);
        return true;
      }
    }
    return false;
  }

  /** classifier_rule_overlaps: true exactly when some packet could match both `target` and a
      stored rule of the same priority. */
  method RuleOverlaps(cls: FlowClassifier, target: Rule) returns (b: bool)
    requires cls.Valid()
    ensures b <==> exists r | Stores(cls.tables, r) :: OverlapsWith(r, target)
  {
    var tables := cls.tables;
    for i := 0 to |tables|
      invariant forall k, r | 0 <= k < i && InTable(tables[k], r) :: !OverlapsWith(r, target)
    {
      assert TableAt(tables, i);
      var found := OverlapsInTable(tables[i], target);
      if found {
        ghost var r :| InTable(tables[i], r) && OverlapsWith(r, target);
        assert Stores(tables, r);
        return true;
      }
    }
    return false;
  }
}
