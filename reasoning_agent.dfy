/** The reasoning agent (reasoning_agent.py): the guard before the model
    call, the reply parsing it shares with the other parsers, and the
    per-question state table it keeps across calls. The model call is the
    input `reply`: the reply text, or `None` when the call raised. */
module Reasoning {
  import opened JsonValue
  import QwenClient

  const UpdatedStates := "updated_question_states"

  /** The table after a decision: each question id the decision's
      `updated_question_states` lists maps to its new state, every other id
      keeps its old one; without such a dict the table is unchanged. */
  function StatesAfter(states: map<string, Json>, result: Option<Obj>): (r: map<string, Json>)
    ensures !(result.Some? && UpdatedStates in result.value && result.value[UpdatedStates].JObj?) ==> r == states
    ensures result.Some? && UpdatedStates in result.value && result.value[UpdatedStates].JObj? ==>
      var updates := result.value[UpdatedStates].fields;
      && r.Keys == states.Keys + updates.Keys
      && (forall id :: id in updates ==> r[id] == updates[id])
      && (forall id :: id in states && id !in updates ==> r[id] == states[id])
  {
    if result.Some? && UpdatedStates in result.value && result.value[UpdatedStates].JObj? then
      states + result.value[UpdatedStates].fields
    else states
  }

  /** `make_decision(report)`: `None` without a model call for a falsy
      report, `None` when the call raised or the reply holds no decodable
      object, `None` when `updated_question_states` is present but not a
      dict (its `.items()` raises); otherwise the decoded decision. */
  function Decision(report: Obj, reply: Option<string>, decode: string -> Option<Obj>): (r: Option<Obj>)
    ensures report == map[] || reply.None? ==> r.None?
    ensures r.Some? ==> reply.Some? && r == QwenClient.ExtractJson(QwenClient.Strip(reply.value), decode)
    ensures r.Some? && UpdatedStates in r.value ==> r.value[UpdatedStates].JObj?
    ensures report != map[] && reply.Some? ==>
      var parsed := QwenClient.ExtractJson(QwenClient.Strip(reply.value), decode);
      (r.None? <==> parsed.None? || (UpdatedStates in parsed.value && !parsed.value[UpdatedStates].JObj?))
  {
    if report == map[] || reply.None? then None
    else match QwenClient.ExtractJson(QwenClient.Strip(reply.value), decode)
      case None => None
      case Some(data) =>
        if UpdatedStates in data && !data[UpdatedStates].JObj? then None else Some(data)
  }

  /** The table with the updates whose ids are in `done` applied. */
  ghost function Applied(states: map<string, Json>, updates: map<string, Json>, done: set<string>): map<string, Json> {
    states + (map id | id in done && id in updates :: updates[id])
  }

  lemma AppliedStep(states: map<string, Json>, updates: map<string, Json>, done: set<string>, id: string)
    requires id in updates
    ensures Applied(states, updates, done + {id}) == Applied(states, updates, done)[id := updates[id]]
  {
  }

  lemma AppliedAll(states: map<string, Json>, updates: map<string, Json>)
    ensures Applied(states, updates, updates.Keys) == states + updates
  {
    assert (map id | id in updates.Keys && id in updates :: updates[id]) == updates;
  }

  class ReasoningAgent {
    /** `question_states`: the learning state of each question id. */
    var questionStates: map<string, Json>

    constructor ()
      ensures questionStates == map[]
    {
      questionStates := map[];
    }

    /** `_build_state_summary`: the table itself. Nothing in the agent
        calls it. */
    function StateSummary(): (r: map<string, Json>)
      reads this
      ensures r.Keys == questionStates.Keys
      ensures forall id :: id in r ==> r[id] == questionStates[id]
    {
      questionStates
    }

    /** `make_decision` with the model's reply: returns the decision and
        copies the listed question states into the table, one id at a time. */
    method MakeDecision(report: Obj, reply: Option<string>, decode: string -> Option<Obj>)
      returns (r: Option<Obj>)
      modifies this
      ensures r == Decision(report, reply, decode)
      ensures questionStates == StatesAfter(old(questionStates), r)
    {
      if report == map[] || reply.None? {
        return None;
      }
      var result := QwenClient.ExtractJson(QwenClient.Strip(reply.value), decode);
      if result.Some? && UpdatedStates in result.value {
        var updated := result.value[UpdatedStates];
        if !updated.JObj? {
          return None;
        }
        ApplyUpdates(updated.fields);
      }
      return result;
    }

    /** The source's `for qid, state in ...items()` loop: each listed id's
        state is copied into the table, one id at a time. */
    method ApplyUpdates(updates: map<string, Json>)
      modifies this
      ensures questionStates == old(questionStates) + updates
    {
      var ids := updates.Keys;
      while ids != {}
        invariant ids <= updates.Keys
        invariant questionStates == Applied(old(questionStates), updates, updates.Keys - ids)
        decreases ids
      {
        var id :| id in ids;
        AppliedStep(old(questionStates), updates, updates.Keys - ids, id);
        questionStates := questionStates[id := updates[id]];
        assert updates.Keys - (ids - {id}) == (updates.Keys - ids) + {id};
        ids := ids - {id};
      }
      assert updates.Keys - ids == updates.Keys;
      AppliedAll(old(questionStates), updates);
    }
  }
}
