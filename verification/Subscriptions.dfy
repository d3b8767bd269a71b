/** The parts of the Subscription resource that the backends read. */
module Subscriptions {

  datatype Option<+T> = None | Some(value: T)

  datatype TypeMatching = Standard | Exact

  /** An event type of the spec together with its cleaned form, as stored in Status.Types. */
  datatype EventType = EventType(originalType: string, cleanType: string)

  const MAX_IN_FLIGHT_MESSAGES := "maxInFlightMessages"

  datatype Subscription = Subscription(
    namespace: string, name: string,
    sink: string, source: string, types: seq<string>, typeMatching: TypeMatching,
    config: map<string, string>,
    statusTypes: seq<EventType>)
  {
    /** Kubernetes names and namespaces contain no slash. */
    predicate NamesValid() {
      '/' !in namespace && '/' !in name
    }

    /** GetMaxInFlightMessages: the configured number, else the default. */
    function MaxInFlight(default: int): int {
      match Atoi(if MAX_IN_FLIGHT_MESSAGES in config then config[MAX_IN_FLIGHT_MESSAGES] else "")
      case Some(n) => n
      case None => default
    }
  }

  /** strconv.Atoi on a 64-bit platform. */
  function Atoi(s: string): Option<int> {
    var signed := s != "" && (s[0] == '+' || s[0] == '-');
    var digits := if signed then s[1..] else s;
    if digits == "" || exists c :: c in digits && !('0' <= c <= '9') then None
    else
      var n := if signed && s[0] == '-' then -Decimal(digits) else Decimal(digits);
      if -0x8000_0000_0000_0000 <= n < 0x8000_0000_0000_0000 then Some(n) else None
  }

  /** The value of a string of decimal digits. */
  function Decimal(digits: string): int {
    if digits == "" then 0
    else 10 * Decimal(digits[..|digits| - 1]) + (digits[|digits| - 1] as int - '0' as int)
  }

  /** getUniqueEventTypes and GetUniqueTypes: the first occurrence of each type, in order. */
  function Unique(types: seq<string>): seq<string> {
    if types == [] then []
    else
      var init, last := Unique(types[..|types| - 1]), types[|types| - 1];
      if last in init then init else init + [last]
  }

  lemma {:induction false} UniqueMembers(types: seq<string>)
    ensures forall t :: t in Unique(types) <==> t in types
    ensures forall i, j :: 0 <= i < j < |Unique(types)| ==> Unique(types)[i] != Unique(types)[j]
  {
    if types != [] {
      var init, last := types[..|types| - 1], types[|types| - 1];
      UniqueMembers(init);
      assert types == init + [last];
    }
  }

  /** The loop of getUniqueEventTypes, which remembers in a table what it has seen; RemoveDuplicateValues
      is the same loop. */
  method GetUniqueEventTypes(types: seq<string>) returns (unique: seq<string>)
    ensures unique == Unique(types)
  {
    unique := [];
    var seen: set<string> := {};
    for i := 0 to |types|
      invariant unique == Unique(types[..i])
      invariant forall t :: t in seen <==> t in unique
    {
      assert types[..i + 1][..i] == types[..i];
      if types[i] !in seen {
        seen := seen + {types[i]};
        unique := unique + [types[i]];
      }
    }
    assert types[..|types|] == types;
  }
}
