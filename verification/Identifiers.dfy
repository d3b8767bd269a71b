/** Names under which the JetStream backend files a subscription's consumers. */
module Identifiers {
  import opened Strings
  import opened Subscriptions

  const SEPARATOR := '/'

  /** The name of a durable consumer.  `Digest(x)` is the truncated SHA-256 of x; modelling it as a
      constructor states the one assumption made about hashing: it is injective on the strings in
      use.  `Foreign` is a consumer that this backend did not create. */
  datatype ConsumerName = Digest(of: string) | Foreign(raw: string)

  /** SubscriptionSubjectIdentifier. */
  datatype Identifier = Identifier(consumerName: ConsumerName, namespacedSubjectName: string)
  {
    /** What every identifier built by NewIdentifier satisfies. */
    predicate WellFormed() {
      consumerName == Digest(namespacedSubjectName) && SEPARATOR in namespacedSubjectName
    }

    /** The Kubernetes namespaced name: everything before the last separator. */
    function NamespacedName(): string
      requires SEPARATOR in namespacedSubjectName
    {
      LastIndexFinds(namespacedSubjectName, SEPARATOR);
      namespacedSubjectName[..LastIndex(namespacedSubjectName, SEPARATOR)]
    }
  }

  /** createKeyPrefix. */
  function KeyPrefix(sub: Subscription): string {
    sub.namespace + [SEPARATOR] + sub.name
  }

  /** The identifier for a subject below a key prefix; see NewIdentifier. */
  function IdentifierFor(prefix: string, subject: string): Identifier {
    var full := prefix + [SEPARATOR] + subject;
    Identifier(Digest(full), full)
  }

  /** NewSubscriptionSubjectIdentifier. */
  function NewIdentifier(sub: Subscription, subject: string): Identifier {
    IdentifierFor(KeyPrefix(sub), subject)
  }

  /** isJsSubAssociatedWithKymaSub, given the subscription's key prefix. */
  predicate Associated(id: Identifier, prefix: string)
    requires id.WellFormed()
  {
    prefix == id.NamespacedName()
  }

  /** `full` names something below `prefix`. */
  predicate Below(full: string, prefix: string) {
    prefix + [SEPARATOR] <= full
  }

  predicate ConsumerBelow(name: ConsumerName, prefix: string) {
    name.Digest? && Below(name.of, prefix)
  }

  /** The subject within "namespace/name/subject": what follows the second separator. */
  function SubjectIn(full: string): string {
    AfterFirst(AfterFirst(full))
  }

  function AfterFirst(s: string): string {
    var i := FirstIndex(s, SEPARATOR);
    if i < |s| then s[i + 1..] else ""
  }

  /** An identifier of the form namespace/name/subject gives its subject back, whatever the subject. */
  lemma SubjectRoundTrip(sub: Subscription, subject: string)
    requires sub.NamesValid()
    ensures SubjectIn(NewIdentifier(sub, subject).namespacedSubjectName) == subject
  {
    var full := NewIdentifier(sub, subject).namespacedSubjectName;
    var tail := sub.name + [SEPARATOR] + subject;
    assert full == sub.namespace + [SEPARATOR] + tail;
    FirstIndexBefore(sub.namespace, SEPARATOR, tail);
    assert AfterFirst(full) == tail;
    FirstIndexBefore(sub.name, SEPARATOR, subject);
  }

  /** An identifier gives back the namespaced name it was built from exactly when its subject has no
      separator.  Exact type matching passes types through uncleaned, so there the subject may have one. */
  lemma NamespacedNameRoundTrip(prefix: string, subject: string)
    ensures IdentifierFor(prefix, subject).WellFormed()
    ensures IdentifierFor(prefix, subject).NamespacedName() == prefix <==> SEPARATOR !in subject
  {
    var id := IdentifierFor(prefix, subject);
    var full := id.namespacedSubjectName;
    assert full[|prefix|] == SEPARATOR;
    if SEPARATOR !in subject {
      LastIndexAfter(prefix, SEPARATOR, subject);
      assert id.NamespacedName() == prefix;
    } else {
      var i :| 0 <= i < |subject| && subject[i] == SEPARATOR;
      assert full[|prefix| + 1 + i] == SEPARATOR;
      LastIndexFinds(full, SEPARATOR);
      assert |id.NamespacedName()| == LastIndex(full, SEPARATOR) > |prefix|;
    }
  }

  /** Association is exactly: the prefix, a separator, and a subject without separators. */
  lemma AssociatedShape(id: Identifier, prefix: string)
    requires id.WellFormed() && Associated(id, prefix)
    ensures Below(id.namespacedSubjectName, prefix)
    ensures exists subject :: SEPARATOR !in subject && id == IdentifierFor(prefix, subject)
  {
    hide LastIndex;
    var full := id.namespacedSubjectName;
    var last := LastIndex(full, SEPARATOR);
    LastIndexFinds(full, SEPARATOR);
    assert 0 <= last;
    var subject := full[last + 1..];
    assert full[..last] == prefix && full == prefix + [SEPARATOR] + subject;
    assert SEPARATOR !in subject by {
      assert forall j :: 0 <= j < |subject| ==> subject[j] == full[last + 1 + j];
    }
    assert id == IdentifierFor(prefix, subject);
  }

  /** Distinct subjects of a subscription have distinct identifiers and distinct consumers. */
  lemma IdentifierInjective(prefix: string, s: string, t: string)
    requires IdentifierFor(prefix, s).consumerName == IdentifierFor(prefix, t).consumerName
    ensures s == t
  {
    var p := prefix + [SEPARATOR];
    assert s == (p + s)[|p|..];
    assert t == (p + t)[|p|..];
  }

  /** Nothing is below the key prefixes of two different subscriptions. */
  lemma PrefixesDisjoint(full: string, a: Subscription, b: Subscription)
    requires a.NamesValid() && b.NamesValid()
    requires Below(full, KeyPrefix(a)) && Below(full, KeyPrefix(b))
    ensures a.namespace == b.namespace && a.name == b.name
  {
    FirstTwoParts(full, a);
    FirstTwoParts(full, b);
  }

  lemma FirstTwoParts(full: string, sub: Subscription)
    requires sub.NamesValid() && Below(full, KeyPrefix(sub))
    ensures sub.namespace == full[..FirstIndex(full, SEPARATOR)]
    ensures var rest := AfterFirst(full); sub.name == rest[..FirstIndex(rest, SEPARATOR)]
  {
    var subject := full[|KeyPrefix(sub)| + 1..];
    var rest := sub.name + [SEPARATOR] + subject;
    assert full == KeyPrefix(sub) + [SEPARATOR] + subject;
    assert full == sub.namespace + [SEPARATOR] + rest;
    FirstIndexBefore(sub.namespace, SEPARATOR, rest);
    assert AfterFirst(full) == rest;
    FirstIndexBefore(sub.name, SEPARATOR, subject);
  }
}
