/** A topic has one name of its own, a subscription one within its topic. */
module Names {
  import opened Common
  import opened QueueSpec
  import opened Tables
  import opened Steps

  ghost predicate NamesUnique(db: Db) {
    && (forall t, u | t in db.topics && u in db.topics && t != u :: db.topics[t].name != db.topics[u].name)
    && (forall a, b | a in db.subscriptions && b in db.subscriptions && a != b
                      && db.subscriptions[a].topicId == db.subscriptions[b].topicId ::
          db.subscriptions[a].name != db.subscriptions[b].name)
  }

  /** Topics stay, and subscriptions at most go. */
  ghost predicate OnlyForgets(db: Db, db': Db) {
    && db'.topics == db.topics
    && forall sub | sub in db'.subscriptions :: sub in db.subscriptions && db'.subscriptions[sub] == db.subscriptions[sub]
  }

  lemma NackForgets(db: Db, id: nat, reason: string, requeue: bool, now: Time, fault: Fault)
    requires JoinsNack(db, id)
    ensures OnlyForgets(db, NackTransaction(db, id, reason, requeue, now, fault).0)
  { }

  lemma RegistryKept(policy: NackPolicy, s: System, step: Step)
    requires !step.DoCreateTopic? && !step.DoCreateSubscription?
    ensures OnlyForgets(s.db, Apply(policy, s, step).db)
  {
    if step.DoNack? {
      NackIsTransaction(policy, s, step);
      if JoinsNack(s.db, step.id) { NackForgets(s.db, step.id, step.reason, step.requeue, s.now, step.fault); }
    } else if step.DoBegin? || step.DoAbort? || step.DoTick? {
      TablesUntouched(policy, s, step);
    } else if step.DoPublish? || step.DoDeleteSubscription? {
    } else {
      RowStepRowsOnly(policy, s, step);
    }
  }

  lemma NamesStep(policy: NackPolicy, s: System, step: Step)
    requires NamesUnique(s.db)
    ensures NamesUnique(Apply(policy, s, step).db)
  {
    if step.DoCreateTopic? {
      assert !TopicNamed(s.db, step.name) ==> forall t | t in s.db.topics :: s.db.topics[t].name != step.name;
    } else if step.DoCreateSubscription? {
    } else {
      RegistryKept(policy, s, step);
    }
  }

  lemma {:induction false} NamesRun(policy: NackPolicy, s: System, steps: seq<Step>)
    requires NamesUnique(s.db)
    ensures NamesUnique(Run(policy, s, steps).db)
    decreases |steps|
  {
    if steps != [] {
      NamesStep(policy, s, steps[0]);
      NamesRun(policy, Apply(policy, s, steps[0]), steps[1..]);
    }
  }

  /** In every reachable state a name finds at most one topic, and within a topic at most one subscription. */
  lemma NamesStayUnique(policy: NackPolicy, start: Time, steps: seq<Step>)
    ensures var db := Run(policy, Init(start), steps).db;
      && (forall t, u | t in db.topics && u in db.topics && db.topics[t].name == db.topics[u].name :: t == u)
      && (forall a, b | a in db.subscriptions && b in db.subscriptions
                        && db.subscriptions[a].topicId == db.subscriptions[b].topicId
                        && db.subscriptions[a].name == db.subscriptions[b].name :: a == b)
  {
    NamesRun(policy, Init(start), steps);
  }
}
