/**
 Domain events of internal/domain/events.go: the checks made when one is built and its idempotency
 key. The generated event ID and the time of day are left out.
 */
module Events {
  import opened Text
  import opened Wrappers

  predicate IsLetter(c: char) {
    'a' <= c <= 'z' || 'A' <= c <= 'Z'
  }

  predicate IsDigit(c: char) {
    '0' <= c <= '9'
  }

  predicate IsAlphanumeric(c: char) {
    IsLetter(c) || IsDigit(c)
  }

  /** `^[a-zA-Z][a-zA-Z0-9]*[a-zA-Z0-9]V(\d+)$`, with the V at `v`. */
  predicate MatchesAt(s: string, v: nat) {
    && 2 <= v < |s| - 1
    && IsLetter(s[0])
    && (forall i :: 1 <= i < v ==> IsAlphanumeric(s[i]))
    && s[v] == 'V'
    && (forall i :: v < i < |s| ==> IsDigit(s[i]))
  }

  predicate MatchesPattern(s: string) {
    exists v: nat :: v < |s| && MatchesAt(s, v)
  }

  // ----- decimal numbers -----

  function Digit(d: nat): char
    requires d < 10
  {
    ['0', '1', '2', '3', '4', '5', '6', '7', '8', '9'][d]
  }

  function Decimal(n: nat): string {
    if n < 10 then [Digit(n)] else Decimal(n / 10) + [Digit(n % 10)]
  }

  /** `%d`. */
  function FormatInt(v: int): string {
    if v < 0 then "-" + Decimal(-v) else Decimal(v)
  }

  lemma {:induction false} DecimalIsDigits(n: nat)
    ensures |Decimal(n)| > 0 && forall i :: 0 <= i < |Decimal(n)| ==> IsDigit(Decimal(n)[i])
  {
    if n >= 10 { DecimalIsDigits(n / 10); }
  }

  lemma {:induction false} DecimalIsInjective(m: nat, n: nat)
    requires Decimal(m) == Decimal(n)
    ensures m == n
  {
    DecimalIsDigits(m / 10);
    DecimalIsDigits(n / 10);
    var s := Decimal(m);
    if m >= 10 && n >= 10 {
      assert s[..|s| - 1] == Decimal(m / 10) == Decimal(n / 10);
      DecimalIsInjective(m / 10, n / 10);
      assert s[|s| - 1] == Digit(m % 10) == Digit(n % 10);
    }
  }

  lemma FormatIntHasNoColon(v: int)
    ensures ':' !in FormatInt(v)
  {
    DecimalIsDigits(if v < 0 then -v else v);
  }

  /** Two versions print alike only if they are equal. */
  lemma FormatIntIsInjective(v: int, w: int)
    requires FormatInt(v) == FormatInt(w)
    ensures v == w
  {
    var s := FormatInt(v);
    DecimalIsDigits(if v < 0 then -v else v);
    DecimalIsDigits(if w < 0 then -w else w);
    assert v < 0 <==> s[0] == '-';
    assert w < 0 <==> s[0] == '-';
    if v < 0 {
      assert s[1..] == Decimal(-v) == Decimal(-w);
      DecimalIsInjective(-v, -w);
    } else {
      DecimalIsInjective(v, w);
    }
  }

  // ----- building an event -----

  datatype EventError = EmptyType | MalformedType(eventType: string) | EmptyKey | MalformedKey(key: string)

  datatype DomainEvent = DomainEvent(
    aggregateType: string,
    aggregateID: string,
    eventType: string,
    payload: string,
    idempotencyKey: string,
    version: int)

  function ValidateEventType(eventType: string): Option<EventError> {
    if eventType == "" then Some(EmptyType)
    else if !MatchesPattern(eventType) then Some(MalformedType(eventType))
    else None
  }

  function ValidateIdempotencyKey(key: string): Option<EventError> {
    if key == "" then Some(EmptyKey)
    else if |SplitOn(key, ':')| != 3 then Some(MalformedKey(key))
    else None
  }

  function KeyOf(aggregateID: string, eventType: string, version: int): string {
    aggregateID + [':'] + (eventType + [':'] + FormatInt(version))
  }

  function NewDomainEvent(aggregateType: string, aggregateID: string, eventType: string, payload: string, version: int):
      Result<DomainEvent, EventError>
  {
    var typeError := ValidateEventType(eventType);
    if typeError.Some? then Err(typeError.value) else
      var key := KeyOf(aggregateID, eventType, version);
      var keyError := ValidateIdempotencyKey(key);
      if keyError.Some? then Err(keyError.value)
      else Ok(DomainEvent(aggregateType, aggregateID, eventType, payload, key, version))
  }

  // ----- what the checks mean -----

  /** The pattern read as a concatenation: a letter, at least one letter or digit, V and at least one digit. */
  lemma PatternMeans(s: string)
    ensures MatchesPattern(s) <==>
              exists head: char, middle: string, digits: string :: s == [head] + middle + "V" + digits && IsTypeShape(head, middle, digits)
  {
    if v: nat :| v < |s| && MatchesAt(s, v) {
      assert s == [s[0]] + s[1..v] + "V" + s[v + 1..];
      assert IsTypeShape(s[0], s[1..v], s[v + 1..]);
    }
    if head: char, middle: string, digits: string :| s == [head] + middle + "V" + digits && IsTypeShape(head, middle, digits) {
      ShapeMatches(s, head, middle, digits);
    }
  }

  lemma ShapeMatches(s: string, head: char, middle: string, digits: string)
    requires s == [head] + middle + "V" + digits && IsTypeShape(head, middle, digits)
    ensures MatchesAt(s, 1 + |middle|)
  {
    var v := 1 + |middle|;
    forall i | 1 <= i < |s| && i != v
      ensures if i < v then s[i] in middle else s[i] in digits
    {
      assert s[i] == if i < v then middle[i - 1] else digits[i - v - 1];
    }
  }

  predicate IsTypeShape(head: char, middle: string, digits: string) {
    && ('a' <= head <= 'z' || 'A' <= head <= 'Z')
    && middle != "" && (forall c :: c in middle ==> 'a' <= c <= 'z' || 'A' <= c <= 'Z' || '0' <= c <= '9')
    && digits != "" && (forall c :: c in digits ==> '0' <= c <= '9')
  }

  /** The number a string of digits stands for. */
  function ValueOf(digits: string): int {
    if digits == "" then 0
    else 10 * ValueOf(digits[..|digits| - 1]) + (digits[|digits| - 1] as int - '0' as int)
  }

  /** Printing a number gives the digits that stand for it, without leading zeros. */
  lemma {:induction false} DecimalMeans(n: nat)
    ensures ValueOf(Decimal(n)) == n
    ensures Decimal(n) != "" && (n > 0 ==> Decimal(n)[0] != '0')
  {
    if n < 10 {
      assert Decimal(n)[..0] == "";
    } else {
      DecimalMeans(n / 10);
      assert Decimal(n)[..|Decimal(n)| - 1] == Decimal(n / 10);
    }
  }

  /** `%d`: a minus sign exactly for negative numbers, and the digits of the absolute value. */
  lemma FormatIntMeans(v: int)
    ensures v >= 0 ==> ValueOf(FormatInt(v)) == v && FormatInt(v) != "" && FormatInt(v)[0] != '-'
    ensures v < 0 ==> FormatInt(v) != "" && FormatInt(v)[0] == '-' && ValueOf(FormatInt(v)[1..]) == -v
  {
    DecimalMeans(if v < 0 then -v else v);
    DecimalIsDigits(if v < 0 then -v else v);
    assert v < 0 ==> FormatInt(v)[1..] == Decimal(-v);
  }

  lemma PatternHasNoColon(eventType: string)
    requires MatchesPattern(eventType)
    ensures ':' !in eventType
  {
    var v: nat :| v < |eventType| && MatchesAt(eventType, v);
    forall i | 0 <= i < |eventType|
      ensures eventType[i] != ':'
    {
      assert i == 0 || 1 <= i < v || i == v || v < i < |eventType|;
    }
  }

  /** A key passes its check exactly when it holds two colons, wherever they are. */
  lemma KeyIsValidExactlyWhen(key: string)
    ensures ValidateIdempotencyKey(key) == None <==> multiset(key)[':'] == 2
  {
    SplitCount(key, ':');
  }

  /** The colons of the aggregate ID only split the ID further. */
  lemma KeyParts(aggregateID: string, eventType: string, version: int)
    requires MatchesPattern(eventType)
    ensures SplitOn(KeyOf(aggregateID, eventType, version), ':') == SplitOn(aggregateID, ':') + [eventType, FormatInt(version)]
  {
    PatternHasNoColon(eventType);
    FormatIntHasNoColon(version);
    SplitConcat(aggregateID, eventType + [':'] + FormatInt(version), ':');
    SplitConcat(eventType, FormatInt(version), ':');
    SplitWhole(eventType, ':');
    SplitWhole(FormatInt(version), ':');
  }

  /** An event is accepted exactly when its type has the form asked for and its aggregate ID has no colon. */
  lemma AcceptedExactlyWhen(aggregateType: string, aggregateID: string, eventType: string, payload: string, version: int)
    ensures NewDomainEvent(aggregateType, aggregateID, eventType, payload, version).Ok? <==>
              MatchesPattern(eventType) && ':' !in aggregateID
  {
    if MatchesPattern(eventType) {
      KeyParts(aggregateID, eventType, version);
      SplitCount(aggregateID, ':');
    }
  }

  /** The other fields of an accepted event are the arguments. */
  lemma EventCarriesArguments(aggregateType: string, aggregateID: string, eventType: string, payload: string, version: int)
    requires NewDomainEvent(aggregateType, aggregateID, eventType, payload, version).Ok?
    ensures var event := NewDomainEvent(aggregateType, aggregateID, eventType, payload, version).value;
            && event.aggregateType == aggregateType && event.aggregateID == aggregateID && event.eventType == eventType
            && event.payload == payload && event.version == version
  {
    hide MatchesPattern, KeyOf;
  }

  /** The key of an accepted event splits back into the three things it was made of. */
  lemma KeySplitsBack(aggregateType: string, aggregateID: string, eventType: string, payload: string, version: int)
    requires NewDomainEvent(aggregateType, aggregateID, eventType, payload, version).Ok?
    ensures SplitOn(NewDomainEvent(aggregateType, aggregateID, eventType, payload, version).value.idempotencyKey, ':')
         == [aggregateID, eventType, FormatInt(version)]
  {
    AcceptedExactlyWhen(aggregateType, aggregateID, eventType, payload, version);
    KeyParts(aggregateID, eventType, version);
    SplitWhole(aggregateID, ':');
  }

  /** Keys with well-formed types are equal exactly when their parts are; the check of the ID is not needed for that. */
  lemma EqualKeys(id1: string, type1: string, version1: int, id2: string, type2: string, version2: int)
    requires MatchesPattern(type1) && MatchesPattern(type2)
    ensures KeyOf(id1, type1, version1) == KeyOf(id2, type2, version2) <==>
              id1 == id2 && type1 == type2 && version1 == version2
  {
    if KeyOf(id1, type1, version1) == KeyOf(id2, type2, version2) {
      KeyParts(id1, type1, version1);
      KeyParts(id2, type2, version2);
      var parts := SplitOn(KeyOf(id1, type1, version1), ':');
      assert parts[|parts| - 2] == type1 == type2;
      assert parts[|parts| - 1] == FormatInt(version1) == FormatInt(version2);
      FormatIntIsInjective(version1, version2);
      assert parts[..|parts| - 2] == SplitOn(id1, ':') == SplitOn(id2, ':');
      JoinSplit(id1, ':');
      JoinSplit(id2, ':');
    }
  }

  /** Two accepted events have equal idempotency keys exactly when ID, type and version are all equal. */
  lemma EventsWithEqualKeys(e1: DomainEvent, e2: DomainEvent)
    requires NewDomainEvent(e1.aggregateType, e1.aggregateID, e1.eventType, e1.payload, e1.version) == Ok(e1)
    requires NewDomainEvent(e2.aggregateType, e2.aggregateID, e2.eventType, e2.payload, e2.version) == Ok(e2)
    ensures e1.idempotencyKey == e2.idempotencyKey <==>
              e1.aggregateID == e2.aggregateID && e1.eventType == e2.eventType && e1.version == e2.version
  {
    EqualKeys(e1.aggregateID, e1.eventType, e1.version, e2.aggregateID, e2.eventType, e2.version);
  }
}
