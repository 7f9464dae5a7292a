/** `AgentService.updateAgent`'s statement builder: one numbered `key = $i` assignment per
    update whose value is not `undefined`, with the agent id bound last. */
module AgentUpdate {
  import opened Text
  import opened Validation

  /** What `updateAgent` does: with nothing to set it returns the agent as stored; otherwise
      it runs the statement with these bound values. */
  datatype UpdatePlan = ReturnCurrent | RunUpdate(query: string, values: seq<JsValue>)

  /** The updates that produce an assignment, in key order; `null` counts, `undefined` does not. */
  function Kept(updates: seq<(string, JsValue)>): (kept: seq<(string, JsValue)>)
    ensures |kept| <= |updates|
    ensures forall p :: p in kept <==> p in updates && p.1 != Undefined
  {
    if updates == [] then []
    else
      var rest := Kept(updates[..|updates| - 1]);
      var last := updates[|updates| - 1];
      assert updates == updates[..|updates| - 1] + [last];
      if last.1 != Undefined then rest + [last] else rest
  }

  /** The assignment for a key bound to placeholder `$index`. */
  function Assignment(key: string, index: nat): string {
    key + " = $" + NatText(index)
  }

  /** The assignments, numbered from 1 in order. */
  function Assignments(kept: seq<(string, JsValue)>): (r: seq<string>)
    ensures |r| == |kept|
  {
    seq(|kept|, i requires 0 <= i < |kept| => Assignment(kept[i].0, i + 1))
  }

  lemma AssignmentsAppend(kept: seq<(string, JsValue)>, x: (string, JsValue))
    ensures Assignments(kept + [x]) == Assignments(kept) + [Assignment(x.0, |kept| + 1)]
    ensures BoundValues(kept + [x]) == BoundValues(kept) + [x.1]
  {
    assert Assignments(kept + [x])[..|kept|] == Assignments(kept);
    assert BoundValues(kept + [x])[..|kept|] == BoundValues(kept);
  }

  function BoundValues(kept: seq<(string, JsValue)>): (r: seq<JsValue>)
    ensures |r| == |kept|
  {
    seq(|kept|, i requires 0 <= i < |kept| => kept[i].1)
  }

  /** The statement text, with the agent id's placeholder numbered `index`. */
  function UpdateQuery(assignments: seq<string>, index: nat): string {
    "UPDATE ai_agents SET " + Join(", ", assignments) + ", updated_at = CURRENT_TIMESTAMP \n"
    + "                   WHERE id = $" + NatText(index) + " RETURNING *"
  }

  /** The plan for `updateAgent(agentId, updates)`, its updates listed in `Object.keys` order. */
  function PlanUpdate(agentId: string, updates: seq<(string, JsValue)>): (plan: UpdatePlan)
    ensures plan.ReturnCurrent? <==> Kept(updates) == []
    ensures plan.RunUpdate? ==>
              && |plan.values| == |Kept(updates)| + 1
              && (forall k :: 0 <= k < |Kept(updates)| ==> plan.values[k] == Kept(updates)[k].1)
              && plan.values[|Kept(updates)|] == Str(agentId)
  {
    var kept := Kept(updates);
    if kept == [] then ReturnCurrent
    else RunUpdate(UpdateQuery(Assignments(kept), |kept| + 1), BoundValues(kept) + [Str(agentId)])
  }

  /** The loop of `updateAgent`: collects assignments and values while counting placeholders. */
  method BuildUpdate(agentId: string, updates: seq<(string, JsValue)>) returns (plan: UpdatePlan)
    ensures plan == PlanUpdate(agentId, updates)
  {
    var fields: seq<string> := [];
    var values: seq<JsValue> := [];
    var paramIndex: nat := 1;
    ghost var kept: seq<(string, JsValue)> := [];
    var i := 0;
    while i < |updates|
      invariant 0 <= i <= |updates|
      invariant kept == Kept(updates[..i])
      invariant fields == Assignments(kept) && values == BoundValues(kept)
      invariant paramIndex == |kept| + 1
    {
      var key := updates[i].0;
      var value := updates[i].1;
      assert updates[..i + 1] == updates[..i] + [(key, value)];
      KeptIsOrderedFilter(updates[..i], (key, value));
      if value != Undefined {
        AssignmentsAppend(kept, (key, value));
        fields := fields + [Assignment(key, paramIndex)];
        values := values + [value];
        paramIndex := paramIndex + 1;
        kept := kept + [(key, value)];
      }
      i := i + 1;
    }
    assert updates[..i] == updates;
    if |fields| == 0 {
      return ReturnCurrent;
    }
    values := values + [Str(agentId)];
    var query := UpdateQuery(fields, paramIndex);
    return RunUpdate(query, values);
  }

  /** No statement runs exactly when every update is `undefined`. */
  lemma NothingToSet(agentId: string, updates: seq<(string, JsValue)>)
    ensures PlanUpdate(agentId, updates) == ReturnCurrent <==> forall p :: p in updates ==> p.1 == Undefined
  {
  }

  /** Placeholder `$k` of the k-th assignment binds the k-th kept value, and the agent id is
      bound last, at `$(kept + 1)`, so there is one value more than there are assignments. */
  lemma PlaceholdersMatchValues(agentId: string, updates: seq<(string, JsValue)>)
    requires PlanUpdate(agentId, updates).RunUpdate?
    ensures var kept := Kept(updates);
            var plan := PlanUpdate(agentId, updates);
            && |plan.values| == |kept| + 1
            && plan.values[|kept|] == Str(agentId)
            && (forall k :: 0 <= k < |kept| ==>
                  Assignments(kept)[k] == kept[k].0 + " = $" + NatText(k + 1) && plan.values[k] == kept[k].1)
            && plan.query == UpdateQuery(Assignments(kept), |kept| + 1)
  {
  }

  /** The agent id's placeholder number is written differently from every assignment's. */
  lemma AgentIdPlaceholderIsLast(kept: seq<(string, JsValue)>, k: nat)
    requires k < |kept|
    ensures NatText(k + 1) != NatText(|kept| + 1)
  {
    if NatText(k + 1) == NatText(|kept| + 1) {
      NatTextInjective(k + 1, |kept| + 1);
    }
  }

  /** One more update adds an assignment at the end exactly when its value is not `undefined`:
      the assignments follow the keys' order. */
  lemma {:induction false} KeptIsOrderedFilter(updates: seq<(string, JsValue)>, x: (string, JsValue))
    ensures Kept(updates + [x]) == if x.1 != Undefined then Kept(updates) + [x] else Kept(updates)
  {
    assert (updates + [x])[..|updates + [x]| - 1] == updates;
  }

  /** Filtering distributes over concatenation: the assignments of a run of updates are those
      of its first part followed by those of the rest, so none is reordered. */
  lemma {:induction false} KeptConcat(a: seq<(string, JsValue)>, b: seq<(string, JsValue)>)
    ensures Kept(a + b) == Kept(a) + Kept(b)
    decreases |b|
  {
    if b == [] {
      assert a + b == a;
    } else {
      var init, last := b[..|b| - 1], b[|b| - 1];
      assert b == init + [last];
      assert a + b == (a + init) + [last];
      KeptIsOrderedFilter(a + init, last);
      KeptIsOrderedFilter(init, last);
      KeptConcat(a, init);
    }
  }
}
