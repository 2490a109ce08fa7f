/**
 * `vambe_trigger_cart_webhook`: walks the active webhooks in order; of those
 * registered for the topic, the first one for each delivery URL is delivered
 * and every later one for the same URL is deleted. A delivery that throws ends
 * the walk (the exception is caught outside the loop).
 */
module Webhooks {
  /** An active webhook: its id, its topic and where it delivers. */
  datatype Webhook = Webhook(id: nat, topic: string, url: string)

  /** What the walk does to one webhook. */
  datatype Action = Deliver(hook: Webhook) | Delete(hook: Webhook)

  const CartUpdatedTopic := "action.cart_updated"
  const CartAbandonedTopic := "action.cart_abandoned"

  /** Hook `i` is for `topic` and no earlier hook for `topic` has its URL. */
  predicate FirstForUrl(hooks: seq<Webhook>, topic: string, i: nat)
    requires i < |hooks|
  {
    hooks[i].topic == topic
    && forall j :: 0 <= j < i && hooks[j].topic == topic ==> hooks[j].url != hooks[i].url
  }

  /** What the walk does at hook `i`, when nothing throws: nothing, a delivery (when there is a payload) or a deletion. */
  function StepAt(hooks: seq<Webhook>, topic: string, hasPayload: bool, i: nat): seq<Action>
    requires i < |hooks|
  {
    if hooks[i].topic != topic then []
    else if !FirstForUrl(hooks, topic, i) then [Delete(hooks[i])]
    else if hasPayload then [Deliver(hooks[i])]
    else []
  }

  /** The reference plan for the first `n` hooks. */
  function Plan(hooks: seq<Webhook>, topic: string, hasPayload: bool, n: nat): seq<Action>
    requires n <= |hooks|
  {
    if n == 0 then [] else Plan(hooks, topic, hasPayload, n - 1) + StepAt(hooks, topic, hasPayload, n - 1)
  }

  /**
   * The walk. `deliverThrows` says which deliveries throw; `actions` lists
   * what was done, a delivery that threw included, and `aborted` says the walk
   * ended at one.
   */
  method Dispatch(hooks: seq<Webhook>, topic: string, hasPayload: bool, deliverThrows: nat -> bool)
    returns (actions: seq<Action>, aborted: bool)
    ensures !aborted ==> actions == Plan(hooks, topic, hasPayload, |hooks|)
    ensures !aborted ==> forall k :: 0 <= k < |actions| && actions[k].Deliver? ==> !deliverThrows(actions[k].hook.id)
    ensures aborted ==> exists n :: 0 < n <= |hooks| && actions == Plan(hooks, topic, hasPayload, n)
    ensures aborted ==> |actions| > 0 && actions[|actions| - 1].Deliver? && deliverThrows(actions[|actions| - 1].hook.id)
    ensures aborted ==> forall k :: 0 <= k < |actions| - 1 && actions[k].Deliver? ==> !deliverThrows(actions[k].hook.id)
  {
    actions, aborted := [], false;
    var processed: seq<string> := [];
    var i := 0;
    while i < |hooks|
      invariant 0 <= i <= |hooks|
      invariant actions == Plan(hooks, topic, hasPayload, i)
      invariant forall u :: u in processed <==> exists j :: 0 <= j < i && hooks[j].topic == topic && hooks[j].url == u
      invariant forall k :: 0 <= k < |actions| && actions[k].Deliver? ==> !deliverThrows(actions[k].hook.id)
    {
      var h := hooks[i];
      assert Plan(hooks, topic, hasPayload, i + 1) == actions + StepAt(hooks, topic, hasPayload, i);
      if h.topic == topic {
        assert h.url in processed <==> !FirstForUrl(hooks, topic, i);
        if h.url in processed {
          actions := actions + [Delete(h)];
        } else {
          processed := processed + [h.url];
          if hasPayload {
            actions := actions + [Deliver(h)];
            if deliverThrows(h.id) {
              assert actions == Plan(hooks, topic, hasPayload, i + 1);
              aborted := true;
              return;
            }
          }
        }
      }
      i := i + 1;
    }
  }

  // ---------------------------------------------------------------------
  // Properties of the plan.

  /** `h` is one of the first `n` hooks and is for `topic`. */
  predicate TopicHookBefore(hooks: seq<Webhook>, topic: string, n: nat, h: Webhook) {
    exists j :: 0 <= j < n && j < |hooks| && hooks[j] == h && h.topic == topic
  }

  /** `h` is one of the first `n` hooks and the first one for its URL. */
  predicate FirstHookBefore(hooks: seq<Webhook>, topic: string, n: nat, h: Webhook) {
    exists j :: 0 <= j < n && j < |hooks| && hooks[j] == h && FirstForUrl(hooks, topic, j)
  }

  /** Every action of the plan is about an earlier hook for the topic; every delivery is about the first hook for its URL. */
  lemma {:induction false} PlanOrigins(hooks: seq<Webhook>, topic: string, hasPayload: bool, n: nat)
    requires n <= |hooks|
    ensures forall k :: 0 <= k < |Plan(hooks, topic, hasPayload, n)| ==>
      TopicHookBefore(hooks, topic, n, Plan(hooks, topic, hasPayload, n)[k].hook)
    ensures forall k :: 0 <= k < |Plan(hooks, topic, hasPayload, n)| && Plan(hooks, topic, hasPayload, n)[k].Deliver? ==>
      FirstHookBefore(hooks, topic, n, Plan(hooks, topic, hasPayload, n)[k].hook)
  {
    if n > 0 {
      PlanOrigins(hooks, topic, hasPayload, n - 1);
      var p := Plan(hooks, topic, hasPayload, n - 1);
      var q := Plan(hooks, topic, hasPayload, n);
      var step := StepAt(hooks, topic, hasPayload, n - 1);
      assert q == p + step;
      forall k | 0 <= k < |q|
        ensures TopicHookBefore(hooks, topic, n, q[k].hook)
        ensures q[k].Deliver? ==> FirstHookBefore(hooks, topic, n, q[k].hook)
      {
        if k < |p| {
          assert q[k] == p[k];
        } else {
          assert q[k] == step[k - |p|] && q[k].hook == hooks[n - 1];
        }
      }
    }
  }

  /** Only hooks for the topic are touched. */
  lemma OtherTopicsUntouched(hooks: seq<Webhook>, topic: string, hasPayload: bool)
    ensures forall k :: 0 <= k < |Plan(hooks, topic, hasPayload, |hooks|)| ==>
      Plan(hooks, topic, hasPayload, |hooks|)[k].hook.topic == topic
  {
    PlanOrigins(hooks, topic, hasPayload, |hooks|);
  }

  /** Each delivery URL is delivered to at most once. */
  lemma {:induction false} DeliveredOncePerUrl(hooks: seq<Webhook>, topic: string, hasPayload: bool, n: nat)
    requires n <= |hooks|
    ensures forall a, b ::
      (0 <= a < b < |Plan(hooks, topic, hasPayload, n)|
       && Plan(hooks, topic, hasPayload, n)[a].Deliver? && Plan(hooks, topic, hasPayload, n)[b].Deliver?) ==>
      Plan(hooks, topic, hasPayload, n)[a].hook.url != Plan(hooks, topic, hasPayload, n)[b].hook.url
  {
    if n > 0 {
      DeliveredOncePerUrl(hooks, topic, hasPayload, n - 1);
      PlanOrigins(hooks, topic, hasPayload, n - 1);
      var p := Plan(hooks, topic, hasPayload, n - 1);
      var q := Plan(hooks, topic, hasPayload, n);
      var step := StepAt(hooks, topic, hasPayload, n - 1);
      assert q == p + step;
      forall a, b | 0 <= a < b < |q| && q[a].Deliver? && q[b].Deliver? ensures q[a].hook.url != q[b].hook.url {
        if b < |p| {
          assert q[a] == p[a] && q[b] == p[b];
          assert p[a].hook.url != p[b].hook.url;
        } else {
          assert q[a] == p[a];
          assert FirstHookBefore(hooks, topic, n - 1, p[a].hook);
          var j :| 0 <= j < n - 1 && hooks[j] == p[a].hook && FirstForUrl(hooks, topic, j);
          assert q[b] == step[b - |p|] == Deliver(hooks[n - 1]);
          assert hooks[j].topic == topic;
          assert hooks[j].url != hooks[n - 1].url;
        }
      }
    }
  }

  lemma {:induction false} PlanGrows(hooks: seq<Webhook>, topic: string, hasPayload: bool, m: nat, n: nat)
    requires m <= n <= |hooks|
    ensures Plan(hooks, topic, hasPayload, m) <= Plan(hooks, topic, hasPayload, n)
    decreases n - m
  {
    if m < n {
      PlanGrows(hooks, topic, hasPayload, m, n - 1);
    }
  }

  /** The first hook for a URL is delivered, when there is a payload. */
  lemma FirstDelivered(hooks: seq<Webhook>, topic: string, i: nat)
    requires i < |hooks| && FirstForUrl(hooks, topic, i)
    ensures Deliver(hooks[i]) in Plan(hooks, topic, true, |hooks|)
  {
    PlanGrows(hooks, topic, true, i + 1, |hooks|);
    assert Plan(hooks, topic, true, i + 1)[|Plan(hooks, topic, true, i)|] == Deliver(hooks[i]);
  }

  /** A later hook for a URL already seen is deleted, payload or not. */
  lemma DuplicateDeleted(hooks: seq<Webhook>, topic: string, hasPayload: bool, i: nat, j: nat)
    requires j < i < |hooks|
    requires hooks[j].topic == topic && hooks[i].topic == topic && hooks[j].url == hooks[i].url
    ensures Delete(hooks[i]) in Plan(hooks, topic, hasPayload, |hooks|)
  {
    PlanGrows(hooks, topic, hasPayload, i + 1, |hooks|);
    assert !FirstForUrl(hooks, topic, i);
    assert Plan(hooks, topic, hasPayload, i + 1)[|Plan(hooks, topic, hasPayload, i)|] == Delete(hooks[i]);
  }

  /** With an empty payload nothing is delivered; duplicates are still deleted. */
  lemma {:induction false} NoPayloadNoDelivery(hooks: seq<Webhook>, topic: string, n: nat)
    requires n <= |hooks|
    ensures forall k :: 0 <= k < |Plan(hooks, topic, false, n)| ==> Plan(hooks, topic, false, n)[k].Delete?
  {
    if n > 0 {
      NoPayloadNoDelivery(hooks, topic, n - 1);
      var p := Plan(hooks, topic, false, n - 1);
      forall k | 0 <= k < |Plan(hooks, topic, false, n)| ensures Plan(hooks, topic, false, n)[k].Delete? {
        if k < |p| {
          assert Plan(hooks, topic, false, n)[k] == p[k];
        }
      }
    }
  }
}
