/** The JetStream cleaner and the subjects computed from it. */
module JetStreamSubjects {
  import opened Strings
  import opened Subscriptions

  /** The characters that `\s` matches. */
  predicate IsSpace(c: char) {
    c == ' ' || c == '\t' || c == '\n' || c == '\r' || c == '\U{000C}'
  }

  predicate ValidTypeCharacter(c: char) {
    !IsSpace(c) && c != '>' && c != '*' && c != '/' && c != '\\'
  }

  predicate ValidSourceCharacter(c: char) {
    ValidTypeCharacter(c) && c != '.'
  }

  function CleanSource(source: string): string {
    Filter(source, ValidSourceCharacter)
  }

  function CleanEventType(eventType: string): string {
    Filter(eventType, ValidTypeCharacter)
  }

  /** GetJetStreamSubject. */
  function Subject(subjectPrefix: string, source: string, subject: string, matching: TypeMatching): string {
    if matching == Exact then subjectPrefix + "." + subject
    else subjectPrefix + "." + CleanSource(source) + "." + subject
  }

  /** GetJetStreamSubjects for the clean types of a status. */
  function Subjects(subjectPrefix: string, sub: Subscription, types: seq<EventType>): (r: seq<string>)
    ensures |r| == |types|
    ensures forall i :: 0 <= i < |r| ==> r[i] == Subject(subjectPrefix, sub.source, types[i].cleanType, sub.typeMatching)
  {
    if types == [] then []
    else [Subject(subjectPrefix, sub.source, types[0].cleanType, sub.typeMatching)] + Subjects(subjectPrefix, sub, types[1..])
  }

  /** GetCleanEventTypes: what syncEventTypes stores in Status.Types. */
  function CleanEventTypes(sub: Subscription): seq<EventType> {
    var unique := Unique(sub.types);
    seq(|unique|, i requires 0 <= i < |unique| =>
      EventType(unique[i], if sub.typeMatching == Exact then unique[i] else CleanEventType(unique[i])))
  }

  /** syncEventTypes, as far as Status.Types goes. */
  function WithTypesSynced(sub: Subscription): Subscription {
    sub.(statusTypes := CleanEventTypes(sub))
  }

  /** Cleaning is idempotent and leaves no character that NATS subjects or identifiers give a meaning. */
  lemma CleanTypeIsClean(eventType: string)
    ensures CleanEventType(CleanEventType(eventType)) == CleanEventType(eventType)
    ensures forall c :: c in CleanEventType(eventType) ==> ValidTypeCharacter(c)
  {
    forall c {
      FilterMembers(eventType, ValidTypeCharacter, c);
    }
    FilterAll(CleanEventType(eventType), ValidTypeCharacter);
  }

  lemma CleanSourceIsClean(source: string)
    ensures CleanSource(CleanSource(source)) == CleanSource(source)
    ensures forall c :: c in CleanSource(source) ==> ValidSourceCharacter(c)
  {
    forall c {
      FilterMembers(source, ValidSourceCharacter, c);
    }
    FilterAll(CleanSource(source), ValidSourceCharacter);
  }

  /** Cleaning goes character by character: of a type it drops white space, slashes, backslashes and the
      wildcards of NATS, and of a source the dots too. */
  lemma CleaningDrops(a: string, b: string, c: char)
    ensures CleanEventType(a + b) == CleanEventType(a) + CleanEventType(b) && CleanSource(a + b) == CleanSource(a) + CleanSource(b)
    ensures CleanEventType([c]) == if c in {' ', '\t', '\n', '\r', '\U{000C}', '>', '*', '/', '\\'} then "" else [c]
    ensures CleanSource([c]) == if c == '.' then "" else CleanEventType([c])
  {
    FilterConcat(a, b, ValidTypeCharacter);
    FilterConcat(a, b, ValidSourceCharacter);
  }

  /** A subject has a slash exactly when the configured prefix or a type taken as it is brings one in. */
  lemma SubjectSlashFree(subjectPrefix: string, source: string, subject: string, matching: TypeMatching)
    requires '/' !in subjectPrefix
    ensures '/' in Subject(subjectPrefix, source, subject, matching) <==> '/' in subject
  {
    CleanSourceIsClean(source);
    assert '/' !in CleanSource(source);
    var head := if matching == Exact then subjectPrefix + "." else subjectPrefix + "." + CleanSource(source) + ".";
    assert Subject(subjectPrefix, source, subject, matching) == head + subject;
  }

  /** In standard mode every status filled by syncEventTypes has slash-free subjects. */
  lemma StandardSubjectsSlashFree(subjectPrefix: string, sub: Subscription)
    requires '/' !in subjectPrefix && sub.typeMatching == Standard
    ensures forall s :: s in Subjects(subjectPrefix, sub, CleanEventTypes(sub)) ==> '/' !in s
  {
    var types := CleanEventTypes(sub);
    forall i | 0 <= i < |types|
      ensures '/' !in Subjects(subjectPrefix, sub, types)[i]
    {
      CleanTypeIsClean(types[i].originalType);
      assert types[i].cleanType == CleanEventType(types[i].originalType);
      SubjectSlashFree(subjectPrefix, sub.source, types[i].cleanType, Standard);
    }
  }

  /** GetCleanEventTypes as the source writes it. */
  method GetCleanEventTypes(sub: Subscription) returns (clean: seq<EventType>)
    ensures clean == CleanEventTypes(sub)
  {
    var unique := GetUniqueEventTypes(sub.types);
    clean := [];
    for i := 0 to |unique|
      invariant clean == CleanEventTypes(sub)[..i]
    {
      var cleanType := unique[i];
      if sub.typeMatching != Exact {
        cleanType := CleanEventType(unique[i]);
      }
      clean := clean + [EventType(unique[i], cleanType)];
    }
  }

  /** The manual branch of revertEventTypeToOriginal. */
  function RevertedType(subjectPrefix: string, eventSource: string, eventType: string): string {
    TrimPrefix(eventType, subjectPrefix + "." + eventSource + ".")
  }

  /** Trimming gives back the type of a standard subject when the event names the cleaned source. */
  lemma RevertRoundTrip(subjectPrefix: string, source: string, cleanType: string)
    ensures RevertedType(subjectPrefix, CleanSource(source), Subject(subjectPrefix, source, cleanType, Standard)) == cleanType
  {
    var head := subjectPrefix + "." + CleanSource(source) + ".";
    assert Subject(subjectPrefix, source, cleanType, Standard) == head + cleanType;
  }
}
