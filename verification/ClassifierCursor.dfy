/** The resumable cursor of `lib/classifier.c`.  The reference is the list of all stored
    rules, filtered one by one with the loose-match test; the cursor skips whole tables
    and tests only the first rule of each list. */
module ClassifierCursor {
  import opened Wrappers
  import opened FlowMatch
  import opened Classifier

  /** Does the cursor owe its client a visit to `r`?  No target means every rule. */
  predicate Wanted(r: Rule, target: Option<Rule>) {
    target.None? || LooseMatch(r, target.value)
  }

  /** rule_matches, which ignores the wildcards of `r`. */
  predicate RuleMatches(r: Rule, target: Option<Rule>) {
    target.None? || EqualExcept(r.flow, target.value.flow, target.value.wc)
  }

  function Concat(heads: seq<RuleList>): seq<Rule> {
    if heads == [] then [] else heads[0] + Concat(heads[1..])
  }

  /** All stored rules in iteration order. */
  function Flat(tables: seq<ClsTable>): seq<Rule> {
    if tables == [] then [] else Concat(tables[0].heads) + Flat(tables[1..])
  }

  function Select(s: seq<Rule>, target: Option<Rule>): seq<Rule> {
    if s == [] then []
    else if Wanted(s[0], target) then [s[0]] + Select(s[1..], target)
    else Select(s[1..], target)
  }

  lemma {:induction false} SelectConcat(a: seq<Rule>, b: seq<Rule>, target: Option<Rule>)
    ensures Select(a + b, target) == Select(a, target) + Select(b, target)
  {
    if a == [] {
      assert a + b == b;
    } else {
      assert (a + b)[1..] == a[1..] + b;
      SelectConcat(a[1..], b, target);
    }
  }

  lemma {:induction false} SelectAll(s: seq<Rule>, target: Option<Rule>)
    requires forall i | 0 <= i < |s| :: Wanted(s[i], target)
    ensures Select(s, target) == s
  {
    if s != [] {
      SelectAll(s[1..], target);
    }
  }

  lemma {:induction false} SelectNone(s: seq<Rule>, target: Option<Rule>)
    requires forall i | 0 <= i < |s| :: !Wanted(s[i], target)
    ensures Select(s, target) == []
  {
    if s != [] {
      SelectNone(s[1..], target);
    }
  }

  /** Does the table's mask rule the whole table out? */
  predicate Excluded(wc: Mask, target: Option<Rule>) {
    target.Some? && HasExtra(wc, target.value.wc)
  }

  /** All rules of a list stand or fall with its first one. */
  lemma SelectList(l: RuleList, wc: Mask, target: Option<Rule>)
    requires ValidList(l, wc)
    ensures Select(l, target) == if !Excluded(wc, target) && RuleMatches(l[0], target) then l else []
  {
    if !Excluded(wc, target) && RuleMatches(l[0], target) {
      SelectAll(l, target);
    } else {
      SelectNone(l, target);
    }
  }

  lemma {:induction false} SelectExcluded(heads: seq<RuleList>, wc: Mask, target: Option<Rule>)
    requires Excluded(wc, target) && forall j | 0 <= j < |heads| :: ValidList(heads[j], wc)
    ensures Select(Concat(heads), target) == []
  {
    if heads != [] {
      SelectList(heads[0], wc, target);
      SelectConcat(heads[0], Concat(heads[1..]), target);
      SelectExcluded(heads[1..], wc, target);
    }
  }

  // ---- Positions ----

  /** A rule by its place: table, list and index in the list. */
  datatype Pos = Pos(table: nat, head: nat, index: nat)

  predicate ValidPos(tables: seq<ClsTable>, p: Pos) {
    p.table < |tables| && p.head < |tables[p.table].heads| && p.index < |tables[p.table].heads[p.head]|
  }

  function At(tables: seq<ClsTable>, p: Pos): Rule
    requires ValidPos(tables, p)
  {
    tables[p.table].heads[p.head][p.index]
  }

  /** Everything after position `p` in iteration order. */
  function Rest(tables: seq<ClsTable>, p: Pos): seq<Rule>
    requires ValidPos(tables, p)
  {
    var heads := tables[p.table].heads;
    heads[p.head][p.index + 1..] + (Concat(heads[p.head + 1..]) + Flat(tables[p.table + 1..]))
  }

  /** `next` is the first position of `s` that is owed a visit, with `s` read as what the
      tables hold from some point on. */
  ghost predicate Leads(tables: seq<ClsTable>, target: Option<Rule>, s: seq<Rule>, next: Option<Pos>) {
    match next
    case None => Select(s, target) == []
    case Some(p) => ValidPos(tables, p) && Wanted(At(tables, p), target)
                    && Select(s, target) == [At(tables, p)] + Select(Rest(tables, p), target)
  }

  /** The scan of one table's hash map from list `from` on. */
  method ScanHeads(heads: seq<RuleList>, wc: Mask, from: nat, target: Option<Rule>) returns (j: int)
    requires from <= |heads| && !Excluded(wc, target)
    requires forall k | 0 <= k < |heads| :: ValidList(heads[k], wc)
    ensures -1 <= j < |heads|
    ensures j < 0 ==> Select(Concat(heads[from..]), target) == []
    ensures j >= 0 ==> from <= j && heads[j] != [] && Wanted(heads[j][0], target)
                       && Select(Concat(heads[from..]), target) == Select(heads[j] + Concat(heads[j + 1..]), target)
  {
    j := from;
    while j < |heads|
      invariant from <= j <= |heads|
      invariant Select(Concat(heads[from..]), target) == Select(Concat(heads[j..]), target)
    {
      assert heads[j..][1..] == heads[j + 1..];
      SelectList(heads[j], wc, target);
      SelectConcat(heads[j], Concat(heads[j + 1..]), target);
      if RuleMatches(heads[j][0], target) {
        return;
      }
      j := j + 1;
    }
    j := -1;
  }

  lemma SelectCons(r: Rule, rest: seq<Rule>, target: Option<Rule>)
    requires Wanted(r, target)
    ensures Select([r] + rest, target) == [r] + Select(rest, target)
  {
    assert ([r] + rest)[1..] == rest;
  }

  lemma RestOfHead(tables: seq<ClsTable>, i: nat, j: nat)
    requires ValidPos(tables, Pos(i, j, 0))
    ensures var heads := tables[i].heads;
            (heads[j] + Concat(heads[j + 1..])) + Flat(tables[i + 1..]) == [heads[j][0]] + Rest(tables, Pos(i, j, 0))
  {
    var l := tables[i].heads[j];
    assert l == [l[0]] + l[1..];
  }

  /** From the first rule of list `j` on, that rule comes first. */
  lemma HeadLeads(tables: seq<ClsTable>, i: nat, j: nat, target: Option<Rule>, s: seq<Rule>)
    requires ValidPos(tables, Pos(i, j, 0)) && Wanted(tables[i].heads[j][0], target)
    requires var heads := tables[i].heads;
             Select(s, target) == Select(heads[j] + Concat(heads[j + 1..]), target) + Select(Flat(tables[i + 1..]), target)
    ensures Leads(tables, target, s, Some(Pos(i, j, 0)))
  {
    var heads := tables[i].heads;
    SelectConcat(heads[j] + Concat(heads[j + 1..]), Flat(tables[i + 1..]), target);
    RestOfHead(tables, i, j);
    SelectCons(heads[j][0], Rest(tables, Pos(i, j, 0)), target);
  }

  /** search_table on table after table, from `from` on. */
  method ScanTables(tables: seq<ClsTable>, from: nat, target: Option<Rule>) returns (next: Option<Pos>)
    requires ValidTables(tables) && from <= |tables|
    ensures Leads(tables, target, Flat(tables[from..]), next)
  {
    var i := from;
    while i < |tables|
      invariant from <= i <= |tables|
      invariant Select(Flat(tables[from..]), target) == Select(Flat(tables[i..]), target)
    {
      assert TableAt(tables, i);
      var t := tables[i];
      assert tables[i..][1..] == tables[i + 1..];
      SelectConcat(Concat(t.heads), Flat(tables[i + 1..]), target);
      if target.None? || !HasExtra(t.wc, target.value.wc) {
        var j := ScanHeads(t.heads, t.wc, 0, target);
        assert t.heads[0..] == t.heads;
        if j >= 0 {
          HeadLeads(tables, i, j, target, Flat(tables[from..]));
          return Some(Pos(i, j, 0));
        }
      } else {
        SelectExcluded(t.heads, t.wc, target);
      }
      i := i + 1;
    }
    return None;
  }

  /** cls_cursor_first */
  method CursorFirst(cls: FlowClassifier, target: Option<Rule>) returns (next: Option<Pos>)
    requires cls.Valid()
    ensures Leads(cls.tables, target, Flat(cls.tables), next)
  {
    next := ScanTables(cls.tables, 0, target);
    assert cls.tables[0..] == cls.tables;
  }

  /** next_rule_in_list__: the list is circular. */
  function NextInList(l: RuleList, k: nat): nat
    requires k < |l|
  {
    if k + 1 < |l| then k + 1 else 0
  }

  lemma RestOfList(tables: seq<ClsTable>, p: Pos)
    requires ValidPos(tables, p) && p.index + 1 < |tables[p.table].heads[p.head]|
    ensures var q := p.(index := p.index + 1); Rest(tables, p) == [At(tables, q)] + Rest(tables, q)
  {
    var l, k := tables[p.table].heads[p.head], p.index + 1;
    assert l[k..] == [l[k]] + l[k + 1..];
  }

  lemma NextLeads(tables: seq<ClsTable>, p: Pos, target: Option<Rule>)
    requires ValidTables(tables) && ValidPos(tables, p) && Wanted(At(tables, p), target)
    requires p.index + 1 < |tables[p.table].heads[p.head]|
    ensures Leads(tables, target, Rest(tables, p), Some(p.(index := p.index + 1)))
  {
    assert TableAt(tables, p.table);
    var q := p.(index := p.index + 1);
    assert Wanted(At(tables, q), target);
    RestOfList(tables, p);
    SelectCons(At(tables, q), Rest(tables, q), target);
  }

  /** At the end of its list, the rest is the rest of the hash map and the other tables. */
  lemma RestAfterList(tables: seq<ClsTable>, p: Pos, target: Option<Rule>)
    requires ValidPos(tables, p) && p.index + 1 == |tables[p.table].heads[p.head]|
    ensures Select(Rest(tables, p), target)
            == Select(Concat(tables[p.table].heads[p.head + 1..]), target) + Select(Flat(tables[p.table + 1..]), target)
  {
    var a, b := Concat(tables[p.table].heads[p.head + 1..]), Flat(tables[p.table + 1..]);
    assert Rest(tables, p) == a + b;
    SelectConcat(a, b, target);
  }

  /** The cursor is only ever in tables that the target does not exclude. */
  lemma NotExcluded(tables: seq<ClsTable>, target: Option<Rule>, p: Pos)
    requires ValidTables(tables) && ValidPos(tables, p) && Wanted(At(tables, p), target)
    ensures var t := tables[p.table]; !Excluded(t.wc, target) && ValidLists(t.heads, t.wc)
  {
    assert TableAt(tables, p.table);
  }

  lemma NothingInMap(tables: seq<ClsTable>, target: Option<Rule>, p: Pos, next: Option<Pos>)
    requires ValidPos(tables, p) && p.index + 1 == |tables[p.table].heads[p.head]|
    requires Select(Concat(tables[p.table].heads[p.head + 1..]), target) == []
    requires Leads(tables, target, Flat(tables[p.table + 1..]), next)
    ensures Leads(tables, target, Rest(tables, p), next)
  {
    RestAfterList(tables, p, target);
  }

  lemma FoundInMap(tables: seq<ClsTable>, target: Option<Rule>, p: Pos, j: nat)
    requires ValidPos(tables, p) && p.index + 1 == |tables[p.table].heads[p.head]|
    requires ValidPos(tables, Pos(p.table, j, 0)) && Wanted(tables[p.table].heads[j][0], target)
    requires var heads := tables[p.table].heads;
             Select(Concat(heads[p.head + 1..]), target) == Select(heads[j] + Concat(heads[j + 1..]), target)
    ensures Leads(tables, target, Rest(tables, p), Some(Pos(p.table, j, 0)))
  {
    RestAfterList(tables, p, target);
    HeadLeads(tables, p.table, j, target, Rest(tables, p));
  }

  /** Scanning on from a position whose list is exhausted. */
  method ScanOn(tables: seq<ClsTable>, target: Option<Rule>, p: Pos) returns (next: Option<Pos>)
    requires ValidTables(tables) && ValidPos(tables, p)
    requires !Excluded(tables[p.table].wc, target) && ValidLists(tables[p.table].heads, tables[p.table].wc)
    requires p.index + 1 == |tables[p.table].heads[p.head]|
    ensures Leads(tables, target, Rest(tables, p), next)
  {
    var t := tables[p.table];
    var j := ScanHeads(t.heads, t.wc, p.head + 1, target);
    if j >= 0 {
      FoundInMap(tables, target, p, j);
      next := Some(Pos(p.table, j, 0));
    } else {
      next := ScanTables(tables, p.table + 1, target);
      NothingInMap(tables, target, p, next);
    }
  }

  /** cls_cursor_next, from a rule the cursor has returned. */
  method CursorNext(cls: FlowClassifier, target: Option<Rule>, p: Pos) returns (next: Option<Pos>)
    requires cls.Valid() && ValidPos(cls.tables, p) && Wanted(At(cls.tables, p), target)
    ensures Leads(cls.tables, target, Rest(cls.tables, p), next)
  {
    var tables := cls.tables;
    assert TableAt(tables, p.table);
    var l := tables[p.table].heads[p.head];
    var n := NextInList(l, p.index);
    if l[n].priority < l[p.index].priority {
      NextLeads(tables, p, target);
      return Some(p.(index := n));
    }
    // `n` is back at the head of the list: go on with the hash map.
    NotExcluded(tables, target, p);
    next := ScanOn(tables, target, p);
  }

  // ---- A whole iteration ----

  /** Every rule is counted once in a strictly descending list. */
  lemma {:induction false} ListOnce(l: RuleList, r: Rule)
    requires Descending(l)
    ensures multiset(l)[r] == if r in l then 1 else 0
  {
    if l != [] {
      assert l == [l[0]] + l[1..];
      ListOnce(l[1..], r);
    }
  }

  lemma {:induction false} ConcatOnce(heads: seq<RuleList>, wc: Mask, r: Rule)
    requires ValidLists(heads, wc)
    ensures multiset(Concat(heads))[r] == if InLists(heads, r) then 1 else 0
  {
    if heads != [] {
      ListOnce(heads[0], r);
      ConcatOnce(heads[1..], wc, r);
      assert InLists(heads, r) <==> r in heads[0] || InLists(heads[1..], r) by {
        if InLists(heads[1..], r) {
          var j :| 0 <= j < |heads[1..]| && r in heads[1..][j];
          assert heads[j + 1] == heads[1..][j];
        }
      }
      assert r in heads[0] ==> !InLists(heads[1..], r);
    }
  }

  /** The iteration order lists every stored rule exactly once and nothing else. */
  lemma {:induction false} FlatOnce(tables: seq<ClsTable>, r: Rule)
    requires ValidTables(tables)
    ensures multiset(Flat(tables))[r] == if Stores(tables, r) then 1 else 0
  {
    if tables != [] {
      assert TableAt(tables, 0);
      ConcatOnce(tables[0].heads, tables[0].wc, r);
      var rest := tables[1..];
      forall k: nat | k < |rest| ensures TableAt(rest, k) {
        assert TableAt(tables, k + 1);
      }
      FlatOnce(rest, r);
      assert Stores(tables, r) <==> InTable(tables[0], r) || Stores(rest, r) by {
        if Stores(rest, r) {
          var k :| 0 <= k < |rest| && InTable(rest[k], r);
          assert tables[k + 1] == rest[k];
        }
      }
      if Stores(rest, r) {
        HasTable(rest, r);
        RuleTable(tables, 0, r);
      }
    }
  }

  lemma {:induction false} SelectCounts(s: seq<Rule>, target: Option<Rule>, r: Rule)
    ensures multiset(Select(s, target))[r] == if Wanted(r, target) then multiset(s)[r] else 0
  {
    if s != [] {
      assert s == [s[0]] + s[1..];
      SelectCounts(s[1..], target, r);
    }
  }

  lemma WalkCounts(tables: seq<ClsTable>, target: Option<Rule>, visited: seq<Rule>)
    requires ValidTables(tables) && visited == Select(Flat(tables), target)
    ensures forall r :: multiset(visited)[r] == if Stores(tables, r) && Wanted(r, target) then 1 else 0
  {
    forall r ensures multiset(visited)[r] == if Stores(tables, r) && Wanted(r, target) then 1 else 0 {
      FlatOnce(tables, r);
      SelectCounts(Flat(tables), target, r);
    }
  }

  /** Visiting the position that leads leaves one rule less to visit. */
  lemma Visit(tables: seq<ClsTable>, target: Option<Rule>, todo: seq<Rule>, p: Pos, visited: seq<Rule>, all: seq<Rule>)
    requires Leads(tables, target, todo, Some(p)) && visited + Select(todo, target) == all
    ensures (visited + [At(tables, p)]) + Select(Rest(tables, p), target) == all
    ensures |Select(Rest(tables, p), target)| < |Select(todo, target)|
  {
  }

  /** Cursor completeness: iterating from cls_cursor_first to NULL ends, and visits each
      stored rule that is owed a visit exactly once, and no other rule. */
  method Walk(cls: FlowClassifier, target: Option<Rule>) returns (visited: seq<Rule>)
    requires cls.Valid()
    ensures forall r :: multiset(visited)[r] == if Stores(cls.tables, r) && Wanted(r, target) then 1 else 0
  {
    visited := [];
    ghost var todo, all := Flat(cls.tables), Select(Flat(cls.tables), target);
    var p := CursorFirst(cls, target);
    while p.Some?
      invariant Leads(cls.tables, target, todo, p)
      invariant visited + Select(todo, target) == all
      decreases |Select(todo, target)|
    {
      Visit(cls.tables, target, todo, p.value, visited, all);
      visited := visited + [At(cls.tables, p.value)];
      todo := Rest(cls.tables, p.value);
      p := CursorNext(cls, target, p.value);
    }
    WalkCounts(cls.tables, target, visited);
  }
}
