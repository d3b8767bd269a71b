/** A sequential EventMesh server.  Any call may go unanswered or be answered with a failure code, and a
    failed change may still have taken effect. */
module EventMeshServers {
  import opened Subscriptions
  import opened EventMeshTypes

  datatype Reply = Status(code: int) | Unanswered

  const OK := 200
  const CREATED := 201
  const ACCEPTED := 202
  const NO_CONTENT := 204
  const NOT_FOUND := 404
  const CONFLICT := 409

  type Entries = map<string, MeshSubscription>

  function EntryOf(entries: Entries, name: string): Option<MeshSubscription> {
    if name in entries then Some(entries[name]) else None
  }

  class EventMeshServer {
    var entries: Entries
    /** The number of calls so far that ask the server to change something. */
    var writes: nat
    /** The number of calls so far that ask to create a subscription under a name that is taken. */
    var conflicts: nat
    /** The number of calls so far that ask for other credentials while the subscription delivers. */
    var hotUpdates: nat
    /** The number of calls so far that failed: they were not answered, or not with what the server holds. */
    var faults: nat

    ghost predicate Valid()
      reads this
    {
      forall name :: name in entries ==> entries[name].name == name
    }

    constructor ()
      ensures Valid() && entries == map[] && writes == 0 && conflicts == 0 && hotUpdates == 0 && faults == 0
    {
      entries, writes, conflicts, hotUpdates, faults := map[], 0, 0, 0, 0;
    }

    method Get(name: string) returns (reply: Reply, found: Option<MeshSubscription>)
      requires Valid()
      modifies this`faults
      ensures Valid() && faults in {old(faults), old(faults) + 1}
      ensures faults == old(faults) <==> reply in {Status(OK), Status(NOT_FOUND)}
      ensures reply == Status(OK) ==> name in entries && found == Some(entries[name])
      ensures reply == Status(NOT_FOUND) ==> name !in entries
      ensures reply != Status(OK) ==> found == None
    {
      var fails: bool := *;
      if fails {
        found, faults := None, faults + 1;
        reply := FailedReply({OK, NOT_FOUND});
      } else if name in entries {
        reply, found := Status(OK), Some(entries[name]);
      } else {
        reply, found := Status(NOT_FOUND), None;
      }
    }

    /** No answer, or an answer with any code but those of an honest one. */
    method FailedReply(honest: set<int>) returns (reply: Reply)
      ensures reply.Status? ==> reply.code !in honest
    {
      var code: int := *;
      reply := if code in honest then Unanswered else Status(code);
    }

    method Delete(name: string) returns (reply: Reply)
      requires Valid()
      modifies this
      ensures Valid() && writes == old(writes) + 1 && conflicts == old(conflicts) && hotUpdates == old(hotUpdates)
      ensures entries == old(entries) || entries == old(entries) - {name}
      ensures faults in {old(faults), old(faults) + 1}
      ensures faults == old(faults) <==> reply in {Status(NO_CONTENT), Status(NOT_FOUND)}
      ensures reply == Status(NO_CONTENT) || reply == Status(NOT_FOUND) ==> name !in entries
    {
      writes := writes + 1;
      var fails: bool := *;
      var lost: bool := *;
      reply := if name in entries then Status(NO_CONTENT) else Status(NOT_FOUND);
      if !fails || lost {
        entries := entries - {name};
      }
      if fails {
        faults := faults + 1;
        reply := FailedReply({NO_CONTENT, NOT_FOUND});
      }
    }

    /** A new subscription is not paused. */
    method Create(e: MeshSubscription) returns (reply: Reply)
      requires Valid()
      modifies this
      ensures Valid() && writes == old(writes) + 1 && hotUpdates == old(hotUpdates)
      ensures conflicts == if e.name in old(entries) then old(conflicts) + 1 else old(conflicts)
      ensures entries == old(entries) ||
              (e.name !in old(entries) && e.name in entries && entries == old(entries)[e.name := e.(report := entries[e.name].report)]
               && !entries[e.name].Paused())
      ensures faults in {old(faults), old(faults) + 1}
      ensures faults == old(faults) <==> reply.Status? && (reply.code <= ACCEPTED || reply.code == CONFLICT)
      ensures reply.Status? && (reply.code <= ACCEPTED || reply.code == CONFLICT) ==> e.name in entries
    {
      writes := writes + 1;
      var fails: bool := *;
      var lost: bool := *;
      if e.name in entries {
        conflicts := conflicts + 1;
        reply := Status(CONFLICT);
      } else {
        reply := Status(CREATED);
        if !fails || lost {
          var report: Report := NO_REPORT;
          if * {
            report := NO_REPORT.(status := ACTIVE);
          }
          entries := entries[e.name := e.(report := report)];
        }
      }
      if fails {
        faults := faults + 1;
        var code: int := *;
        reply := if code <= ACCEPTED || code == CONFLICT then Unanswered else Status(code);
      }
    }

    /** Pauses or resumes.  The subscription may turn out to have vanished. */
    method UpdateState(name: string, status: string) returns (reply: Reply)
      requires Valid()
      modifies this
      ensures Valid() && writes == old(writes) + 1 && conflicts == old(conflicts) && hotUpdates == old(hotUpdates)
      ensures entries == old(entries) || entries == old(entries) - {name}
              || (name in old(entries)
                  && entries == old(entries)[name := old(entries)[name].(report := old(entries)[name].report.(status := status))])
      ensures faults in {old(faults), old(faults) + 1}
      ensures faults == old(faults) <==> reply in {Status(ACCEPTED), Status(NOT_FOUND)}
      ensures reply == Status(NOT_FOUND) ==> name !in entries
      ensures reply == Status(ACCEPTED) ==> name in entries && entries[name].report.status == status
    {
      writes := writes + 1;
      var fails: bool := *;
      var lost: bool := *;
      if * {
        entries := entries - {name};
      }
      reply := if name in entries then Status(ACCEPTED) else Status(NOT_FOUND);
      if name in entries && (!fails || lost) {
        entries := entries[name := entries[name].(report := entries[name].report.(status := status))];
      }
      if fails {
        faults := faults + 1;
        reply := FailedReply({ACCEPTED, NOT_FOUND});
      }
    }

    /** Replaces the credentials.  The subscription may turn out to have vanished. */
    method Update(name: string, auth: Option<WebhookAuth>) returns (reply: Reply)
      requires Valid()
      modifies this
      ensures Valid() && writes == old(writes) + 1 && conflicts == old(conflicts)
      ensures hotUpdates == if name in old(entries) && !old(entries)[name].Paused() then old(hotUpdates) + 1 else old(hotUpdates)
      ensures entries == old(entries) || entries == old(entries) - {name}
              || (name in old(entries) && entries == old(entries)[name := old(entries)[name].(webhookAuth := auth)])
      ensures faults in {old(faults), old(faults) + 1}
      ensures faults == old(faults) <==> reply in {Status(NO_CONTENT), Status(NOT_FOUND)}
      ensures reply == Status(NOT_FOUND) ==> name !in entries
      ensures reply == Status(NO_CONTENT) ==> name in entries && entries[name].webhookAuth == auth
    {
      writes := writes + 1;
      if name in entries && !entries[name].Paused() {
        hotUpdates := hotUpdates + 1;
      }
      var fails: bool := *;
      var lost: bool := *;
      if * {
        entries := entries - {name};
      }
      reply := if name in entries then Status(NO_CONTENT) else Status(NOT_FOUND);
      if name in entries && (!fails || lost) {
        entries := entries[name := entries[name].(webhookAuth := auth)];
      }
      if fails {
        faults := faults + 1;
        reply := FailedReply({NO_CONTENT, NOT_FOUND});
      }
    }
  }
}
