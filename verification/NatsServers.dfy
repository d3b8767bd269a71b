/** A sequential NATS JetStream server holding one stream.  Every call may fail; a failed write may or
    may not have taken effect. */
module NatsServers {
  import opened Identifiers
  import opened Outcomes

  /** `uid` tells apart successive consumers of one name. */
  datatype Consumer = Consumer(filterSubject: string, maxAckPending: int, pushBound: bool, uid: nat)

  type Consumers = map<ConsumerName, Consumer>

  datatype ConsumerReply = Found(consumer: Consumer) | NotFound | Unavailable

  class NatsServer {
    var consumers: Consumers
    var created: nat
    /** The number of calls so far that ask the server to change something. */
    var writes: nat
    /** The number of calls so far that failed, though the server holds what they need. */
    var faults: nat

    ghost predicate Valid()
      reads this
    {
      forall name :: name in consumers ==> consumers[name].uid < created
    }

    constructor ()
      ensures Valid() && consumers == map[] && writes == 0 && faults == 0
    {
      consumers, created, writes, faults := map[], 0, 0, 0;
    }

    /** Whether the server can be reached, after another attempt to. */
    method Connect() returns (outcome: Outcome)
      modifies this`faults
      ensures outcome in {Pass, Fail(Failed)} && faults == old(faults) + if outcome.Pass? then 0 else 1
    {
      outcome := Pass;
      if * {
        outcome, faults := Fail(Failed), faults + 1;
      }
    }

    method ConsumerInfo(name: ConsumerName) returns (reply: ConsumerReply)
      modifies this`faults
      ensures faults == old(faults) + if reply.Unavailable? then 1 else 0
      ensures reply.Found? ==> name in consumers && reply.consumer == consumers[name]
      ensures reply.NotFound? ==> name !in consumers
    {
      if * {
        faults := faults + 1;
        return Unavailable;
      }
      reply := if name in consumers then Found(consumers[name]) else NotFound;
    }

    /** Creating under a name that is taken is refused. */
    method AddConsumer(name: ConsumerName, filterSubject: string, maxAckPending: int) returns (reply: ConsumerReply)
      requires Valid()
      modifies this
      ensures Valid() && writes == old(writes) + 1 && created >= old(created)
      ensures consumers == old(consumers)
              || (name !in old(consumers) && consumers == old(consumers)[name := Consumer(filterSubject, maxAckPending, false, old(created))])
      ensures !reply.NotFound? && faults in {old(faults), old(faults) + 1}
      ensures reply.Found? <==> name !in old(consumers) && faults == old(faults)
      ensures reply.Found? ==> name !in old(consumers) && name in consumers && reply.consumer == consumers[name]
    {
      writes := writes + 1;
      var fails: bool := *;
      faults := if fails then faults + 1 else faults;
      var lost: bool := *;
      if name in consumers || (fails && !lost) {
        return Unavailable;
      }
      var consumer := Consumer(filterSubject, maxAckPending, false, created);
      consumers, created := consumers[name := consumer], created + 1;
      reply := if fails then Unavailable else Found(consumer);
    }

    method UpdateConsumer(name: ConsumerName, filterSubject: string, maxAckPending: int) returns (outcome: Outcome)
      requires Valid()
      modifies this
      ensures Valid() && writes == old(writes) + 1 && created == old(created) && faults in {old(faults), old(faults) + 1}
      ensures outcome == if name in old(consumers) && faults == old(faults) then Pass else Fail(Failed)
      ensures consumers == old(consumers) || (name in old(consumers) && consumers == old(consumers)[
        name := old(consumers)[name].(filterSubject := filterSubject, maxAckPending := maxAckPending)])
      ensures outcome.Pass? ==> name in consumers && consumers[name].maxAckPending == maxAckPending && consumers[name].filterSubject == filterSubject
    {
      writes := writes + 1;
      var fails: bool := *;
      faults := if fails then faults + 1 else faults;
      var lost: bool := *;
      if name !in consumers || (fails && !lost) {
        return Fail(Failed);
      }
      consumers := consumers[name := consumers[name].(filterSubject := filterSubject, maxAckPending := maxAckPending)];
      outcome := if fails then Fail(Failed) else Pass;
    }

    /** deleteConsumerFromJetStream: deleting a consumer that does not exist is no error. */
    method DeleteConsumer(name: ConsumerName) returns (outcome: Outcome)
      requires Valid()
      modifies this
      ensures Valid() && writes == old(writes) + 1 && created == old(created)
      ensures outcome in {Pass, Fail(Failed)} && faults == old(faults) + if outcome.Pass? then 0 else 1
      ensures consumers == old(consumers) || consumers == old(consumers) - {name}
      ensures outcome.Pass? ==> consumers == old(consumers) - {name}
    {
      writes := writes + 1;
      var fails: bool := *;
      faults := if fails then faults + 1 else faults;
      var lost: bool := *;
      if !fails || lost {
        consumers := consumers - {name};
      }
      outcome := if fails then Fail(Failed) else Pass;
    }

    /** Subscribe with the Bind option: attaches a client to a consumer that exists and is not attached. */
    method Subscribe(name: ConsumerName) returns (reply: ConsumerReply)
      requires Valid()
      modifies this
      ensures Valid() && writes == old(writes) + 1 && created == old(created)
      ensures consumers == old(consumers)
              || (name in old(consumers) && consumers == old(consumers)[name := old(consumers)[name].(pushBound := true)])
      ensures !reply.NotFound? && faults in {old(faults), old(faults) + 1}
      ensures reply.Found? <==> name in old(consumers) && !old(consumers)[name].pushBound && faults == old(faults)
      ensures reply.Found? ==> name in consumers && consumers[name].pushBound && reply.consumer == consumers[name]
    {
      writes := writes + 1;
      var fails: bool := *;
      faults := if fails then faults + 1 else faults;
      var lost: bool := *;
      if name !in consumers || consumers[name].pushBound || (fails && !lost) {
        return Unavailable;
      }
      consumers := consumers[name := consumers[name].(pushBound := true)];
      reply := if fails then Unavailable else Found(consumers[name]);
    }

    /** Detaches a client from its consumer.  The consumer stays: it was not created by Subscribe. */
    method Unsubscribe(name: ConsumerName) returns (outcome: Outcome)
      requires Valid()
      modifies this
      ensures Valid() && writes == old(writes) + 1 && created == old(created)
      ensures consumers == old(consumers)
              || (name in old(consumers) && consumers == old(consumers)[name := old(consumers)[name].(pushBound := false)])
      ensures outcome in {Pass, Fail(Failed)} && faults == old(faults) + if outcome.Pass? then 0 else 1
      ensures outcome.Pass? ==> name in consumers ==> !consumers[name].pushBound
    {
      writes := writes + 1;
      var fails: bool := *;
      faults := if fails then faults + 1 else faults;
      var lost: bool := *;
      if name in consumers && (!fails || lost) {
        consumers := consumers[name := consumers[name].(pushBound := false)];
      }
      outcome := if fails then Fail(Failed) else Pass;
    }
  }
}
