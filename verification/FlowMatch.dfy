/** Masked flow comparison, as `lib/flow.c` and `lib/classifier.c` do it.  A flow is the
    1200 bits of its 150 significant bytes, and a set of wildcards is a mask of the same
    shape with a 1-bit for every bit that must match, so that the C code's bitwise
    operations act bit by bit. */
module FlowMatch {
  const BITS: nat := 1200

  type Flow = f: seq<bool> | |f| == BITS witness seq(BITS, _ => false)
  type Mask = Flow

  /** struct cls_rule.  `id` stands for the address of the client's object. */
  datatype Rule = Rule(id: nat, flow: Flow, wc: Mask, priority: nat)

  /** flow_zero_wildcards: bitwise and with the mask. */
  function Zero(f: Flow, m: Mask): Flow {
    seq(BITS, i requires 0 <= i < BITS => f[i] && m[i])
  }

  /** flow_equal_except: the exclusive or of the flows is zero under the mask. */
  predicate EqualExcept(a: Flow, b: Flow, m: Mask) {
    forall i | 0 <= i < BITS :: !(a[i] != b[i] && m[i])
  }

  /** flow_wildcards_combine */
  function Combine(m: Mask, n: Mask): Mask {
    seq(BITS, i requires 0 <= i < BITS => m[i] && n[i])
  }

  /** flow_wildcards_has_extra: `m` wildcards a bit that `n` does not. */
  predicate HasExtra(m: Mask, n: Mask) {
    exists i | 0 <= i < BITS :: (m[i] && n[i]) != n[i]
  }

  /** flow_wildcards_is_catchall */
  predicate Catchall(m: Mask) {
    forall i | 0 <= i < BITS :: !m[i]
  }

  /** The meaning of a rule: the packets it applies to. */
  predicate Matches(r: Rule, f: Flow) {
    EqualExcept(r.flow, f, r.wc)
  }

  /** Wildcarded bits are zero, which every cls_rule_* function maintains. */
  predicate Zeroed(r: Rule) {
    Zero(r.flow, r.wc) == r.flow
  }

  /** cls_rule_is_loose_match */
  predicate LooseMatch(r: Rule, criteria: Rule) {
    !HasExtra(r.wc, criteria.wc) && EqualExcept(r.flow, criteria.flow, criteria.wc)
  }

  /** Comparing under a mask is comparing after zeroing the wildcarded bits. */
  lemma EqualExceptIsZeroed(a: Flow, b: Flow, m: Mask)
    ensures EqualExcept(a, b, m) <==> Zero(a, m) == Zero(b, m)
  {
    if Zero(a, m) == Zero(b, m) {
      forall i | 0 <= i < BITS ensures !(a[i] != b[i] && m[i]) {
        assert Zero(a, m)[i] == Zero(b, m)[i];
      }
    }
  }

  /** A rule with zeroed wildcards matches exactly the flows that zero to its own. */
  lemma MatchesIsZeroed(r: Rule, f: Flow)
    requires Zeroed(r)
    ensures Matches(r, f) <==> Zero(f, r.wc) == r.flow
  {
    EqualExceptIsZeroed(r.flow, f, r.wc);
  }

  /** Two rules agree wherever both care exactly when some packet matches both. */
  lemma OverlapIsSharedPacket(r: Rule, q: Rule)
    ensures EqualExcept(r.flow, q.flow, Combine(r.wc, q.wc)) <==> exists f: Flow :: Matches(r, f) && Matches(q, f)
  {
    var m := Combine(r.wc, q.wc);
    if EqualExcept(r.flow, q.flow, m) {
      var f: Flow := seq(BITS, i requires 0 <= i < BITS => if r.wc[i] then r.flow[i] else q.flow[i]);
      assert Matches(r, f);
      forall i | 0 <= i < BITS ensures !(q.flow[i] != f[i] && q.wc[i]) {
        assert m[i] == (r.wc[i] && q.wc[i]);
      }
      assert Matches(q, f);
    }
    forall f: Flow | Matches(r, f) && Matches(q, f) ensures EqualExcept(r.flow, q.flow, m) {
    }
  }

  /** A rule loosely matches the criteria exactly when every packet of the rule satisfies
      the criteria: the truth table over fields is containment of the packet sets. */
  lemma LooseMatchIsContainment(r: Rule, criteria: Rule)
    ensures LooseMatch(r, criteria) <==> forall f: Flow | Matches(r, f) :: Matches(criteria, f)
  {
    if LooseMatch(r, criteria) {
      forall f: Flow | Matches(r, f) ensures Matches(criteria, f) {
        forall i | 0 <= i < BITS ensures !(criteria.flow[i] != f[i] && criteria.wc[i]) {
          assert (r.wc[i] && criteria.wc[i]) == criteria.wc[i];
        }
      }
    }
    if forall f: Flow | Matches(r, f) :: Matches(criteria, f) {
      // The rule's own flow, and that flow with every bit the rule does not care about flipped.
      var g: Flow := seq(BITS, i requires 0 <= i < BITS => if r.wc[i] then r.flow[i] else !r.flow[i]);
      assert Matches(r, r.flow) && Matches(r, g);
      assert Matches(criteria, r.flow) && Matches(criteria, g);
      forall i | 0 <= i < BITS ensures (r.wc[i] && criteria.wc[i]) == criteria.wc[i] {
        assert !(criteria.flow[i] != r.flow[i] && criteria.wc[i]);
        assert !(criteria.flow[i] != g[i] && criteria.wc[i]);
      }
    }
  }
}
