/** The flow classifier of `lib/classifier.c`: a table per set of wildcards, in each table a
    hash map from masked flow to rule, and behind each of those rules a list of the rules
    that differ from it only in having lower priority. */
module Classifier {
  import opened Wrappers
  import opened FlowMatch

  /** A rule list: the rule in the hash map first, then the rest in list order. */
  type RuleList = seq<Rule>

  /** struct cls_table.  `heads` lists the hash map in its iteration order. */
  datatype ClsTable = ClsTable(wc: Mask, catchall: bool, heads: seq<RuleList>, nTableRules: nat)

  predicate SameKey(r: Rule, q: Rule) {
    r.wc == q.wc && r.flow == q.flow && r.priority == q.priority
  }

  // ---- What the data structure maintains ----

  predicate Descending(l: RuleList) {
    forall i, j | 0 <= i < j < |l| :: l[i].priority > l[j].priority
  }

  /** A nonempty list of rules for one masked flow of table `wc`, highest priority first. */
  predicate ValidList(l: RuleList, wc: Mask) {
    && l != []
    && Descending(l)
    && forall i | 0 <= i < |l| :: l[i].wc == wc && l[i].flow == l[0].flow && Zeroed(l[i])
  }

  function Total(heads: seq<RuleList>): nat {
    if heads == [] then 0 else Total(heads[..|heads| - 1]) + |heads[|heads| - 1]|
  }

  predicate DistinctHeads(heads: seq<RuleList>)
    requires forall j | 0 <= j < |heads| :: heads[j] != []
  {
    forall i, j | 0 <= i < j < |heads| :: heads[i][0].flow != heads[j][0].flow
  }

  predicate ValidLists(heads: seq<RuleList>, wc: Mask) {
    (forall j | 0 <= j < |heads| :: ValidList(heads[j], wc)) && DistinctHeads(heads)
  }

  predicate ValidHeads(t: ClsTable) {
    (t.catchall <==> Catchall(t.wc)) && ValidLists(t.heads, t.wc)
  }

  predicate ValidTable(t: ClsTable) {
    t.heads != [] && ValidHeads(t) && t.nTableRules == Total(t.heads)
  }

  function Count(tables: seq<ClsTable>): nat {
    if tables == [] then 0 else Count(tables[..|tables| - 1]) + tables[|tables| - 1].nTableRules
  }

  predicate TableAt(tables: seq<ClsTable>, i: nat)
    requires i < |tables|
  {
    ValidTable(tables[i])
  }

  predicate ValidTables(tables: seq<ClsTable>) {
    && (forall i: nat | i < |tables| :: TableAt(tables, i))
    && (forall i, j | 0 <= i < j < |tables| :: tables[i].wc != tables[j].wc)
  }

  predicate InLists(heads: seq<RuleList>, r: Rule) {
    exists j | 0 <= j < |heads| :: r in heads[j]
  }

  predicate InTable(t: ClsTable, r: Rule) {
    InLists(t.heads, r)
  }

  predicate Stores(tables: seq<ClsTable>, r: Rule) {
    exists i | 0 <= i < |tables| :: InTable(tables[i], r)
  }

  // ---- Lists ----

  /** Where a rule of priority `p` belongs: before the first rule it is not below. */
  function Place(l: RuleList, p: nat): (pos: nat)
    ensures pos <= |l|
  {
    if l == [] || p >= l[0].priority then 0 else 1 + Place(l[1..], p)
  }

  function Displaced(l: RuleList, r: Rule): Option<Rule> {
    var pos := Place(l, r.priority);
    if pos < |l| && l[pos].priority == r.priority then Some(l[pos]) else None
  }

  function Inserted(l: RuleList, r: Rule): RuleList {
    var pos := Place(l, r.priority);
    if pos < |l| && l[pos].priority == r.priority then l[pos := r] else l[..pos] + [r] + l[pos..]
  }

  lemma {:induction false} PlaceSplits(l: RuleList, p: nat)
    requires Descending(l)
    ensures forall i | 0 <= i < |l| :: i < Place(l, p) <==> l[i].priority > p
  {
    if l != [] && p < l[0].priority {
      PlaceSplits(l[1..], p);
    }
  }

  lemma InsertedShape(l: RuleList, r: Rule)
    requires Descending(l)
    ensures var pos := Place(l, r.priority); var t := Inserted(l, r);
            if Displaced(l, r).Some? then
              pos < |l| && |t| == |l| && forall i | 0 <= i < |t| :: t[i] == if i == pos then r else l[i]
            else
              |t| == |l| + 1 && forall i | 0 <= i < |t| :: t[i] == if i < pos then l[i] else if i == pos then r else l[i - 1]
  {
  }

  /** Inserting keeps the list strictly descending ... */
  lemma InsertedValid(l: RuleList, r: Rule)
    requires ValidList(l, r.wc) && Zeroed(r) && r.flow == l[0].flow
    ensures ValidList(Inserted(l, r), r.wc) && Inserted(l, r)[0].flow == r.flow
  {
    PlaceSplits(l, r.priority);
    InsertedShape(l, r);
  }

  /** ... and swaps out exactly the rule of equal priority, if there is one. */
  lemma InsertedRules(l: RuleList, r: Rule)
    requires ValidList(l, r.wc) && r.flow == l[0].flow
    ensures forall q :: q in Inserted(l, r) <==> q == r || (q in l && q.priority != r.priority)
    ensures Displaced(l, r).Some? ==> Displaced(l, r).value in l && SameKey(Displaced(l, r).value, r)
    ensures Displaced(l, r).None? ==> forall q | q in l :: q.priority != r.priority
  {
    PlaceSplits(l, r.priority);
    InsertedShape(l, r);
    var pos, t := Place(l, r.priority), Inserted(l, r);
    if Displaced(l, r).None? {
      assert forall i | 0 <= i < |l| :: l[i] == if i < pos then t[i] else t[i + 1];
    } else {
      assert forall i | 0 <= i < |l| && i != pos :: l[i] == t[i];
    }
    assert t[pos] == r;
  }

  /** `l` without position `k`. */
  function Without(l: RuleList, k: nat): RuleList
    requires k < |l|
  {
    l[..k] + l[k + 1..]
  }

  lemma WithoutList(l: RuleList, k: nat, wc: Mask)
    requires ValidList(l, wc) && k < |l|
    ensures Without(l, k) != [] ==> ValidList(Without(l, k), wc) && Without(l, k)[0].flow == l[0].flow
    ensures forall q :: q in Without(l, k) <==> q in l && q != l[k]
  {
    var t := Without(l, k);
    assert forall i | 0 <= i < |t| :: t[i] == if i < k then l[i] else l[i + 1];
    assert forall i | 0 <= i < |l| && i != k :: l[i] == if i < k then t[i] else t[i - 1];
  }

  // ---- Tables ----

  lemma {:induction false} TotalUpdate(heads: seq<RuleList>, j: nat, l: RuleList)
    requires j < |heads|
    ensures Total(heads[j := l]) == Total(heads) - |heads[j]| + |l|
  {
    var n := |heads| - 1;
    assert heads[j := l][..n] == if j < n then heads[..n][j := l] else heads[..n];
    if j < n {
      TotalUpdate(heads[..n], j, l);
    }
  }

  lemma {:induction false} TotalRemove(heads: seq<RuleList>, j: nat)
    requires j < |heads|
    ensures Total(heads[..j] + heads[j + 1..]) == Total(heads) - |heads[j]|
  {
    var n := |heads| - 1;
    if j < n {
      TotalRemove(heads[..n], j);
      assert (heads[..j] + heads[j + 1..])[..n - 1] == heads[..n][..j] + heads[..n][j + 1..];
    } else {
      assert heads[..j] + heads[j + 1..] == heads[..n];
    }
  }

  /** The table after hmap_replace and list surgery changed list `j`. */
  lemma ReplacedHead(t: ClsTable, j: nat, l: RuleList)
    requires ValidHeads(t) && j < |t.heads| && ValidList(l, t.wc) && l[0].flow == t.heads[j][0].flow
    ensures ValidHeads(t.(heads := t.heads[j := l]))
    ensures Total(t.heads[j := l]) == Total(t.heads) - |t.heads[j]| + |l|
  {
    TotalUpdate(t.heads, j, l);
  }

  lemma ReplacedHeadRules(t: ClsTable, j: nat, l: RuleList, q: Rule)
    requires ValidHeads(t) && j < |t.heads|
    ensures InTable(t.(heads := t.heads[j := l]), q) <==> q in l || (InTable(t, q) && q.flow != t.heads[j][0].flow)
  {
    var heads := t.heads[j := l];
    ListOf(t, j, q);
    if q in l {
      assert q in heads[j];
    }
    if InTable(t, q) && q !in t.heads[j] {
      var i :| 0 <= i < |t.heads| && q in t.heads[i];
      assert q in heads[i];
    }
    if InTable(t.(heads := heads), q) && q !in l {
      var i :| 0 <= i < |heads| && q in heads[i];
      assert q in t.heads[i];
      assert t.heads[i][0].flow != t.heads[j][0].flow;
    }
  }

  lemma AddedHead(t: ClsTable, r: Rule)
    requires ValidHeads(t) && Zeroed(r) && r.wc == t.wc
    requires forall j | 0 <= j < |t.heads| :: t.heads[j][0].flow != r.flow
    ensures ValidHeads(t.(heads := t.heads + [[r]]))
    ensures forall q :: InTable(t.(heads := t.heads + [[r]]), q) <==> q == r || InTable(t, q)
    ensures Total(t.heads + [[r]]) == Total(t.heads) + 1
  {
    var heads := t.heads + [[r]];
    assert heads[..|t.heads|] == t.heads;
    assert heads[|t.heads|] == [r];
    forall q | InTable(t, q) ensures InTable(t.(heads := heads), q) {
      var j :| 0 <= j < |t.heads| && q in t.heads[j];
      assert heads[j] == t.heads[j];
    }
  }

  function DropHead(heads: seq<RuleList>, j: nat): (r: seq<RuleList>)
    requires j < |heads|
    ensures |r| == |heads| - 1 && forall i | 0 <= i < |r| :: r[i] == heads[if i < j then i else i + 1]
  {
    heads[..j] + heads[j + 1..]
  }

  lemma RemovedHead(t: ClsTable, j: nat)
    requires ValidHeads(t) && j < |t.heads|
    ensures ValidHeads(t.(heads := DropHead(t.heads, j)))
    ensures Total(DropHead(t.heads, j)) == Total(t.heads) - |t.heads[j]|
  {
    TotalRemove(t.heads, j);
    var heads := DropHead(t.heads, j);
    forall i | 0 <= i < |heads| ensures ValidList(heads[i], t.wc) {
      assert heads[i] == t.heads[if i < j then i else i + 1];
    }
    forall i, k | 0 <= i < k < |heads| ensures heads[i][0].flow != heads[k][0].flow {
      assert heads[i] == t.heads[if i < j then i else i + 1];
      assert heads[k] == t.heads[if k < j then k else k + 1];
    }
  }

  lemma RemovedHeadRules(t: ClsTable, j: nat, q: Rule)
    requires ValidHeads(t) && j < |t.heads|
    ensures InTable(t.(heads := DropHead(t.heads, j)), q) <==> exists i | 0 <= i < |t.heads| && i != j :: q in t.heads[i]
  {
    var heads := DropHead(t.heads, j);
    forall i | 0 <= i < |t.heads| && i != j && q in t.heads[i] ensures InTable(t.(heads := heads), q) {
      assert heads[if i < j then i else i - 1] == t.heads[i];
    }
  }

  /** In a valid table a rule can only be in the list of its own flow. */
  lemma ListOf(t: ClsTable, j: nat, q: Rule)
    requires ValidHeads(t) && j < |t.heads|
    ensures q in t.heads[j] <==> InTable(t, q) && q.flow == t.heads[j][0].flow
  {
  }

  /** find_equal */
  method FindEqual(t: ClsTable, flow: Flow) returns (j: int)
    requires ValidHeads(t)
    ensures -1 <= j < |t.heads|
    ensures j >= 0 ==> t.heads[j][0].flow == flow
    ensures j < 0 ==> forall i | 0 <= i < |t.heads| :: t.heads[i][0].flow != flow
  {
    j := 0;
    while j < |t.heads|
      invariant 0 <= j <= |t.heads|
      invariant forall i | 0 <= i < j :: t.heads[i][0].flow != flow
    {
      if t.heads[j][0].flow == flow {
        return;
      }
      j := j + 1;
    }
    j := -1;
  }

  /** The scan of insert_rule for the insertion point. */
  method InsertIntoList(l: RuleList, r: Rule) returns (l': RuleList, old_: Option<Rule>)
    ensures l' == Inserted(l, r) && old_ == Displaced(l, r)
  {
    var k := 0;
    while k < |l| && r.priority < l[k].priority
      invariant 0 <= k <= |l|
      invariant Place(l, r.priority) == k + Place(l[k..], r.priority)
    {
      k := k + 1;
    }
    if k < |l| && r.priority == l[k].priority {
      return l[k := r], Some(l[k]);
    }
    return l[..k] + [r] + l[k..], None;
  }

  /** What inserting `r` does to a table: the rule with its key goes, `r` comes. */
  ghost predicate InsertsRule(t: ClsTable, t': ClsTable, r: Rule, displaced: Option<Rule>) {
    && t'.wc == t.wc && t'.nTableRules == t.nTableRules
    && t'.heads != [] && ValidHeads(t')
    && (forall q :: InTable(t', q) <==> q == r || (InTable(t, q) && !SameKey(q, r)))
    && (displaced.Some? ==> InTable(t, displaced.value) && SameKey(displaced.value, r))
    && (displaced.None? ==> forall q | InTable(t, q) :: !SameKey(q, r))
    && Total(t'.heads) == Total(t.heads) + if displaced.None? then 1 else 0
  }

  lemma InsertedIntoHead(t: ClsTable, j: nat, r: Rule)
    requires ValidHeads(t) && j < |t.heads| && Zeroed(r) && r.wc == t.wc && r.flow == t.heads[j][0].flow
    ensures InsertsRule(t, t.(heads := t.heads[j := Inserted(t.heads[j], r)]), r, Displaced(t.heads[j], r))
  {
    var l := t.heads[j];
    var t' := t.(heads := t.heads[j := Inserted(l, r)]);
    InsertedValid(l, r);
    InsertedRules(l, r);
    InsertedShape(l, r);
    ReplacedHead(t, j, Inserted(l, r));
    forall q ensures InTable(t', q) <==> q == r || (InTable(t, q) && !SameKey(q, r)) {
      ReplacedHeadRules(t, j, Inserted(l, r), q);
      ListOf(t, j, q);
    }
    forall q | InTable(t, q) && SameKey(q, r) ensures q in l {
      ListOf(t, j, q);
    }
  }

  /** insert_rule */
  method InsertRule(t: ClsTable, r: Rule) returns (t': ClsTable, displaced: Option<Rule>)
    requires ValidHeads(t) && Zeroed(r) && r.wc == t.wc
    ensures InsertsRule(t, t', r, displaced)
  {
    var j := FindEqual(t, r.flow);
    if j < 0 {
      AddedHead(t, r);
      return t.(heads := t.heads + [[r]]), None;
    }
    var l;
    l, displaced := InsertIntoList(t.heads[j], r);
    InsertedIntoHead(t, j, r);
    t' := t.(heads := t.heads[j := l]);
  }

  /** What removing `r` does to a table. */
  ghost predicate RemovesRule(t: ClsTable, t': ClsTable, r: Rule) {
    && t'.wc == t.wc && t'.nTableRules == t.nTableRules
    && ValidHeads(t')
    && (forall q :: InTable(t', q) <==> InTable(t, q) && q != r)
    && Total(t'.heads) == Total(t.heads) - 1
  }

  lemma RemovedFromList(t: ClsTable, j: nat, k: nat)
    requires ValidHeads(t) && j < |t.heads| && k < |t.heads[j]| && |t.heads[j]| > 1
    ensures RemovesRule(t, t.(heads := t.heads[j := Without(t.heads[j], k)]), t.heads[j][k])
  {
    var l := Without(t.heads[j], k);
    WithoutList(t.heads[j], k, t.wc);
    ReplacedHead(t, j, l);
    forall q ensures InTable(t.(heads := t.heads[j := l]), q) <==> InTable(t, q) && q != t.heads[j][k] {
      ReplacedHeadRules(t, j, l, q);
      ListOf(t, j, q);
    }
  }

  lemma RemovedWithHead(t: ClsTable, j: nat)
    requires ValidHeads(t) && j < |t.heads| && |t.heads[j]| == 1
    ensures RemovesRule(t, t.(heads := DropHead(t.heads, j)), t.heads[j][0])
  {
    RemovedHead(t, j);
    forall q ensures InTable(t.(heads := DropHead(t.heads, j)), q) <==> InTable(t, q) && q != t.heads[j][0] {
      RemovedHeadRules(t, j, q);
      ListOf(t, j, q);
    }
  }

  /** The list surgery of classifier_remove: `head` is what find_equal returns. */
  method RemoveRule(t: ClsTable, r: Rule) returns (t': ClsTable)
    requires ValidHeads(t) && InTable(t, r)
    ensures RemovesRule(t, t', r)
  {
    var j := FindEqual(t, r.flow);
    assert j >= 0;
    var l := t.heads[j];
    ListOf(t, j, r);
    if l[0] != r {
      var k := 0;
      while l[k] != r
        invariant 0 <= k < |l| && r !in l[..k]
        decreases |l| - k
      {
        assert r in l[k + 1..] by { assert l == l[..k + 1] + l[k + 1..]; }
        k := k + 1;
      }
      RemovedFromList(t, j, k);
      t' := t.(heads := t.heads[j := Without(l, k)]);
    } else if |l| == 1 {
      RemovedWithHead(t, j);
      t' := t.(heads := DropHead(t.heads, j));
    } else {
      // The next rule takes the head's place in the hash map.
      RemovedFromList(t, j, 0);
      t' := t.(heads := t.heads[j := Without(l, 0)]);
    }
  }

  // ---- The classifier ----

  lemma {:induction false} CountUpdate(tables: seq<ClsTable>, i: nat, t: ClsTable)
    requires i < |tables|
    ensures Count(tables[i := t]) == Count(tables) - tables[i].nTableRules + t.nTableRules
  {
    var n := |tables| - 1;
    assert tables[i := t][..n] == if i < n then tables[..n][i := t] else tables[..n];
    if i < n {
      CountUpdate(tables[..n], i, t);
    }
  }

  function DropTable(tables: seq<ClsTable>, i: nat): (r: seq<ClsTable>)
    requires i < |tables|
    ensures |r| == |tables| - 1 && forall k | 0 <= k < |r| :: r[k] == tables[if k < i then k else k + 1]
  {
    tables[..i] + tables[i + 1..]
  }

  lemma {:induction false} CountRemove(tables: seq<ClsTable>, i: nat)
    requires i < |tables|
    ensures Count(DropTable(tables, i)) == Count(tables) - tables[i].nTableRules
  {
    var n := |tables| - 1;
    if i < n {
      CountRemove(tables[..n], i);
      assert DropTable(tables, i)[..n - 1] == DropTable(tables[..n], i);
    } else {
      assert DropTable(tables, i) == tables[..n];
    }
  }

  /** A stored rule is in the one table with its wildcards. */
  lemma RuleTable(tables: seq<ClsTable>, i: nat, r: Rule)
    requires ValidTables(tables) && i < |tables|
    ensures InTable(tables[i], r) <==> Stores(tables, r) && r.wc == tables[i].wc
  {
    assert TableAt(tables, i);
    if Stores(tables, r) {
      var k: nat :| k < |tables| && InTable(tables[k], r);
      assert TableAt(tables, k);
    }
  }

  lemma UpdatedTable(tables: seq<ClsTable>, i: nat, t: ClsTable)
    requires ValidTables(tables) && i < |tables| && ValidTable(t) && t.wc == tables[i].wc
    ensures ValidTables(tables[i := t])
  {
    var tables' := tables[i := t];
    forall k: nat | k < |tables'| ensures TableAt(tables', k) {
      assert TableAt(tables, k);
    }
  }

  lemma UpdatedTableRules(tables: seq<ClsTable>, i: nat, t: ClsTable, q: Rule)
    requires ValidTables(tables) && i < |tables|
    ensures Stores(tables[i := t], q) <==> InTable(t, q) || (Stores(tables, q) && q.wc != tables[i].wc)
  {
    var tables' := tables[i := t];
    RuleTable(tables, i, q);
    if InTable(t, q) {
      assert InTable(tables'[i], q);
    }
    if Stores(tables, q) && !InTable(tables[i], q) {
      var k :| 0 <= k < |tables| && InTable(tables[k], q);
      assert InTable(tables'[k], q);
    }
    if Stores(tables', q) && !InTable(t, q) {
      var k: nat :| k < |tables| && InTable(tables'[k], q);
      assert InTable(tables[k], q) && tables[k].wc != tables[i].wc;
      RuleTable(tables, k, q);
    }
  }

  lemma AddedTable(tables: seq<ClsTable>, t: ClsTable)
    requires ValidTables(tables) && ValidTable(t) && forall i | 0 <= i < |tables| :: tables[i].wc != t.wc
    ensures ValidTables(tables + [t])
    ensures Count(tables + [t]) == Count(tables) + t.nTableRules
  {
    var tables' := tables + [t];
    assert tables'[..|tables|] == tables;
    forall k: nat | k < |tables'| ensures TableAt(tables', k) {
      assert k < |tables| ==> TableAt(tables, k);
    }
  }

  lemma AddedTableRules(tables: seq<ClsTable>, t: ClsTable, q: Rule)
    ensures Stores(tables + [t], q) <==> InTable(t, q) || Stores(tables, q)
  {
    var tables' := tables + [t];
    assert tables'[|tables|] == t;
    if Stores(tables, q) {
      var k :| 0 <= k < |tables| && InTable(tables[k], q);
      assert InTable(tables'[k], q);
    }
  }

  lemma DroppedTable(tables: seq<ClsTable>, i: nat)
    requires ValidTables(tables) && i < |tables|
    ensures ValidTables(DropTable(tables, i))
  {
    var tables' := DropTable(tables, i);
    forall k: nat | k < |tables'| ensures TableAt(tables', k) {
      assert TableAt(tables, if k < i then k else k + 1);
    }
    forall k, l | 0 <= k < l < |tables'| ensures tables'[k].wc != tables'[l].wc {
      assert tables'[k] == tables[if k < i then k else k + 1];
      assert tables'[l] == tables[if l < i then l else l + 1];
    }
  }

  lemma DroppedTableRules(tables: seq<ClsTable>, i: nat, q: Rule)
    requires ValidTables(tables) && i < |tables|
    ensures Stores(DropTable(tables, i), q) <==> Stores(tables, q) && q.wc != tables[i].wc
  {
    var tables' := DropTable(tables, i);
    if Stores(tables', q) {
      var k: nat :| k < |tables'| && InTable(tables'[k], q);
      var k' := if k < i then k else k + 1;
      assert tables'[k] == tables[k'];
      RuleTable(tables, k', q);
    }
    if Stores(tables, q) && q.wc != tables[i].wc {
      var k: nat :| k < |tables| && InTable(tables[k], q);
      assert k != i by { RuleTable(tables, i, q); }
      assert tables'[if k < i then k else k - 1] == tables[k];
    }
  }

  /** The effect of classifier_replace on the set of tables. */
  ghost predicate ReplacesRule(tables: seq<ClsTable>, tables': seq<ClsTable>, r: Rule, displaced: Option<Rule>) {
    && ValidTables(tables')
    && Count(tables') == Count(tables) + (if displaced.None? then 1 else 0)
    && (forall q :: Stores(tables', q) <==> q == r || (Stores(tables, q) && !SameKey(q, r)))
    && (displaced.Some? ==> Stores(tables, displaced.value) && SameKey(displaced.value, r))
    && (displaced.None? ==> forall q | Stores(tables, q) :: !SameKey(q, r))
  }

  /** The table's rule count after an insertion. */
  function Counted(t: ClsTable, displaced: Option<Rule>): ClsTable {
    if displaced.None? then t.(nTableRules := t.nTableRules + 1) else t
  }

  lemma ReplacedInTableValid(tables: seq<ClsTable>, i: nat, t: ClsTable, r: Rule, displaced: Option<Rule>)
    requires ValidTables(tables) && i < |tables| && InsertsRule(tables[i], t, r, displaced)
    ensures var tables' := tables[i := Counted(t, displaced)];
            ValidTables(tables') && Count(tables') == Count(tables) + if displaced.None? then 1 else 0
  {
    assert TableAt(tables, i);
    UpdatedTable(tables, i, Counted(t, displaced));
    CountUpdate(tables, i, Counted(t, displaced));
  }

  lemma ReplacedInTableRules(tables: seq<ClsTable>, i: nat, t: ClsTable, r: Rule, displaced: Option<Rule>, q: Rule)
    requires ValidTables(tables) && i < |tables| && r.wc == tables[i].wc && InsertsRule(tables[i], t, r, displaced)
    ensures Stores(tables[i := Counted(t, displaced)], q) <==> q == r || (Stores(tables, q) && !SameKey(q, r))
    ensures Stores(tables, q) && SameKey(q, r) ==> displaced.Some?
  {
    UpdatedTableRules(tables, i, Counted(t, displaced), q);
    RuleTable(tables, i, q);
    assert InTable(Counted(t, displaced), q) <==> InTable(t, q);
  }

  lemma ReplacedInTable(tables: seq<ClsTable>, i: nat, t: ClsTable, r: Rule, displaced: Option<Rule>)
    requires ValidTables(tables) && i < |tables| && r.wc == tables[i].wc
    requires InsertsRule(tables[i], t, r, displaced)
    ensures ReplacesRule(tables, tables[i := Counted(t, displaced)], r, displaced)
  {
    ReplacedInTableValid(tables, i, t, r, displaced);
    forall q {
      ReplacedInTableRules(tables, i, t, r, displaced, q);
    }
    if displaced.Some? {
      RuleTable(tables, i, displaced.value);
    }
  }

  lemma ReplacedInNewTable(tables: seq<ClsTable>, t: ClsTable, r: Rule, displaced: Option<Rule>)
    requires ValidTables(tables) && forall i | 0 <= i < |tables| :: tables[i].wc != r.wc
    requires InsertsRule(ClsTable(r.wc, Catchall(r.wc), [], 0), t, r, displaced)
    ensures displaced.None? && ReplacesRule(tables, tables + [Counted(t, displaced)], r, displaced)
  {
    AddedTable(tables, Counted(t, displaced));
    forall q ensures Stores(tables, q) ==> q.wc != r.wc {
      if Stores(tables, q) {
        HasTable(tables, q);
      }
    }
    forall q ensures Stores(tables + [Counted(t, displaced)], q) <==> q == r || Stores(tables, q) {
      AddedTableRules(tables, Counted(t, displaced), q);
      assert InTable(Counted(t, displaced), q) <==> InTable(t, q);
    }
  }

  lemma HasTable(tables: seq<ClsTable>, r: Rule)
    requires ValidTables(tables) && Stores(tables, r)
    ensures exists k | 0 <= k < |tables| :: tables[k].wc == r.wc
  {
    var k: nat :| k < |tables| && InTable(tables[k], r);
    assert TableAt(tables, k);
  }

  lemma {:induction false} HeadsNonempty(heads: seq<RuleList>)
    requires forall j | 0 <= j < |heads| :: heads[j] != []
    ensures Total(heads) >= |heads|
  {
    if heads != [] {
      HeadsNonempty(heads[..|heads| - 1]);
    }
  }

  /** classifier_remove leaves a nonempty table in place ... */
  lemma RemovedFromTable(tables: seq<ClsTable>, i: nat, t: ClsTable, r: Rule)
    requires ValidTables(tables) && i < |tables| && r.wc == t.wc
    requires RemovesRule(tables[i], t.(nTableRules := tables[i].nTableRules), r)
    requires t.nTableRules == tables[i].nTableRules - 1 > 0
    ensures ValidTables(tables[i := t]) && Count(tables[i := t]) == Count(tables) - 1
    ensures forall q :: Stores(tables[i := t], q) <==> Stores(tables, q) && q != r
  {
    var u := t.(nTableRules := tables[i].nTableRules);
    assert TableAt(tables, i);
    assert u.heads == t.heads && ValidHeads(t);
    HeadsNonempty(t.heads);
    assert t.heads != [] by { assert Total([]) == 0; }
    UpdatedTable(tables, i, t);
    CountUpdate(tables, i, t);
    forall q ensures Stores(tables[i := t], q) <==> Stores(tables, q) && q != r {
      UpdatedTableRules(tables, i, t, q);
      RuleTable(tables, i, q);
      assert InTable(t, q) <==> InTable(u, q);
    }
  }

  /** ... and destroys one that has become empty. */
  lemma RemovedWithTable(tables: seq<ClsTable>, i: nat, t: ClsTable, r: Rule)
    requires ValidTables(tables) && i < |tables| && r.wc == t.wc
    requires RemovesRule(tables[i], t.(nTableRules := tables[i].nTableRules), r)
    requires t.nTableRules == tables[i].nTableRules - 1 == 0
    ensures ValidTables(DropTable(tables, i)) && Count(DropTable(tables, i)) == Count(tables) - 1
    ensures forall q :: Stores(DropTable(tables, i), q) <==> Stores(tables, q) && q != r
  {
    var u := t.(nTableRules := tables[i].nTableRules);
    assert TableAt(tables, i);
    HeadsNonempty(t.heads);
    DroppedTable(tables, i);
    CountRemove(tables, i);
    forall q ensures Stores(DropTable(tables, i), q) <==> Stores(tables, q) && q != r {
      DroppedTableRules(tables, i, q);
      RuleTable(tables, i, q);
      assert !InTable(u, q);
    }
  }

  class FlowClassifier {
    var tables: seq<ClsTable>
    var nRules: nat

    predicate Valid()
      reads this
    {
      ValidTables(tables) && nRules == Count(tables)
    }

    /** classifier_init */
    constructor ()
      ensures Valid() && nRules == 0 && forall r :: !Stores(tables, r)
    {
      tables := [];
      nRules := 0;
    }

    /** find_table */
    method FindTable(wc: Mask) returns (i: int)
      ensures -1 <= i < |tables|
      ensures i >= 0 ==> tables[i].wc == wc
      ensures i < 0 ==> forall k | 0 <= k < |tables| :: tables[k].wc != wc
    {
      i := 0;
      while i < |tables|
        invariant 0 <= i <= |tables|
        invariant forall k | 0 <= k < i :: tables[k].wc != wc
      {
        if tables[i].wc == wc {
          return;
        }
        i := i + 1;
      }
      i := -1;
    }

    /** classifier_replace: a rule with the same key is displaced and returned, and nothing
        else changes. */
    method Replace(r: Rule) returns (displaced: Option<Rule>)
      requires Valid() && Zeroed(r)
      modifies this
      ensures Valid() && ReplacesRule(old(tables), tables, r, displaced)
      ensures nRules == old(nRules) + if displaced.None? then 1 else 0
    {
      var i := FindTable(r.wc);
      var t;
      if i < 0 {
        t, displaced := InsertRule(ClsTable(r.wc, Catchall(r.wc), [], 0), r);
        ReplacedInNewTable(tables, t, r, displaced);
        tables := tables + [Counted(t, displaced)];
      } else {
        assert TableAt(tables, i);
        t, displaced := InsertRule(tables[i], r);
        ReplacedInTable(tables, i, t, r, displaced);
        tables := tables[i := Counted(t, displaced)];
      }
      if displaced.None? {
        nRules := nRules + 1;
      }
    }

    /** classifier_remove, for a rule that is in the classifier. */
    method Remove(r: Rule)
      requires Valid() && Stores(tables, r)
      modifies this
      ensures Valid()
      ensures forall q :: Stores(tables, q) <==> Stores(old(tables), q) && q != r
      ensures nRules == old(nRules) - 1
    {
      HasTable(tables, r);
      var i := FindTable(r.wc);
      RuleTable(tables, i, r);
      assert TableAt(tables, i);
      var t := RemoveRule(tables[i], r);
      HeadsNonempty(tables[i].heads);
      t := t.(nTableRules := t.nTableRules - 1);
      if t.nTableRules == 0 {
        RemovedWithTable(tables, i, t, r);
        tables := DropTable(tables, i);
      } else {
        RemovedFromTable(tables, i, t, r);
        tables := tables[i := t];
      }
      nRules := nRules - 1;
    }
  }
}
