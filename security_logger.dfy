/** The in-memory security event log of `lib/security-logger.ts`: a bounded buffer of the
    last 1000 events, the classification of event types into log levels, the one-line
    format written to the console, and the queries over the buffer. The clock is a
    parameter (`now`), and console output is returned instead of printed. */
module SecurityLog {
  import opened Wrappers
  import opened Collections

  datatype EventType =
    | AuthSuccess | AuthFailure
    | RegisterSuccess | RegisterFailure
    | PasswordResetRequest | PasswordResetSuccess | PasswordResetInvalidToken
    | RateLimitExceeded | UnauthorizedAccess | SuspiciousActivity
    | XssAttempt | SqlInjectionAttempt

  /** The string value of each `SecurityEventType` member. */
  function TypeName(t: EventType): string
  {
    match t
    case AuthSuccess => "AUTH_SUCCESS"
    case AuthFailure => "AUTH_FAILURE"
    case RegisterSuccess => "REGISTER_SUCCESS"
    case RegisterFailure => "REGISTER_FAILURE"
    case PasswordResetRequest => "PASSWORD_RESET_REQUEST"
    case PasswordResetSuccess => "PASSWORD_RESET_SUCCESS"
    case PasswordResetInvalidToken => "PASSWORD_RESET_INVALID_TOKEN"
    case RateLimitExceeded => "RATE_LIMIT_EXCEEDED"
    case UnauthorizedAccess => "UNAUTHORIZED_ACCESS"
    case SuspiciousActivity => "SUSPICIOUS_ACTIVITY"
    case XssAttempt => "XSS_ATTEMPT"
    case SqlInjectionAttempt => "SQL_INJECTION_ATTEMPT"
  }

  /** What a caller of `log` supplies: the event without its timestamp. */
  datatype EventData = EventData(
    kind: EventType,
    userId: Option<string>,
    email: Option<string>,
    ip: Option<string>,
    userAgent: Option<string>,
    details: Option<string>)

  /** `SecurityEvent`: the data stamped with the time `log` received it. */
  datatype SecurityEvent = SecurityEvent(data: EventData, timestamp: int)

  /** How many events the log keeps. */
  const MaxEvents := 1000

  // ---------------------------------------------------------------- log levels

  datatype LogLevel = Info | Warn | Error

  const ErrorEvents: seq<EventType> :=
    [PasswordResetInvalidToken, UnauthorizedAccess, SuspiciousActivity, XssAttempt, SqlInjectionAttempt]

  const WarnEvents: seq<EventType> := [AuthFailure, RegisterFailure, RateLimitExceeded]

  /** `getLogLevel`: error events first, then warn events, info for the rest. */
  function GetLogLevel(t: EventType): (level: LogLevel)
    ensures level == Error <==> t in ErrorEvents
    ensures level == Warn <==> t in WarnEvents
  {
    if t in ErrorEvents then Error
    else if t in WarnEvents then Warn
    else Info
  }

  /** The level of every event type, listed one by one. */
  lemma LogLevelTable(t: EventType)
    ensures GetLogLevel(t) ==
      match t
      case PasswordResetInvalidToken | UnauthorizedAccess | SuspiciousActivity
         | XssAttempt | SqlInjectionAttempt => Error
      case AuthFailure | RegisterFailure | RateLimitExceeded => Warn
      case AuthSuccess | RegisterSuccess | PasswordResetRequest | PasswordResetSuccess => Info
  {
  }

  // ---------------------------------------------------------------- formatEvent

  /** `parts.join(sep)`. */
  function Join(parts: seq<string>, sep: string): (r: string)
    ensures parts != [] ==> StartsWith(r, parts[0])
    ensures |parts| > 1 ==> |r| >= |parts[0]| + |sep|
  {
    if parts == [] then []
    else if |parts| == 1 then parts[0]
    else parts[0] + sep + Join(parts[1..], sep)
  }

  lemma {:induction false} JoinContainsParts(parts: seq<string>, sep: string, i: nat)
    requires i < |parts|
    ensures Occurs(parts[i], Join(parts, sep))
    decreases |parts|
  {
    var r := Join(parts, sep);
    if i == 0 {
      assert OccursAt(parts[0], r, 0);
    } else {
      var tail := Join(parts[1..], sep);
      JoinContainsParts(parts[1..], sep, i - 1);
      var k :| OccursAt(parts[i], tail, k);
      var off := |parts[0]| + |sep|;
      assert r == (parts[0] + sep) + tail;
      assert r[off + k..off + k + |parts[i]|] == tail[k..k + |parts[i]|];
      assert OccursAt(parts[i], r, off + k);
    }
  }

  /** A field of the event is shown when it is present and not empty (truthy). */
  predicate Shown(field: Option<string>)
  {
    field.Some? && field.value != []
  }

  /** The `label=value` part of a field, or nothing when it is not shown. */
  function Labelled(tag: string, field: Option<string>): seq<string>
  {
    if Shown(field) then [tag + field.value] else []
  }

  /** The parts `formatEvent` joins: the type, then email, userId, ip and details. */
  function Parts(e: SecurityEvent): (r: seq<string>)
    ensures |r| >= 1 && r[0] == TypeName(e.data.kind)
    ensures |r| == 1 <==>
              !Shown(e.data.email) && !Shown(e.data.userId) && !Shown(e.data.ip) && !Shown(e.data.details)
    ensures Shown(e.data.email) ==> r[1] == "email=" + e.data.email.value
    ensures Shown(e.data.details) ==> r[|r| - 1] == "details=" + e.data.details.value
  {
    [TypeName(e.data.kind)]
      + Labelled("email=", e.data.email)
      + Labelled("userId=", e.data.userId)
      + Labelled("ip=", e.data.ip)
      + Labelled("details=", e.data.details)
  }

  /** `formatEvent`: the parts joined by `" | "`. */
  function FormatEvent(e: SecurityEvent): (line: string)
    ensures StartsWith(line, TypeName(e.data.kind))
    ensures line == TypeName(e.data.kind) <==>
              !Shown(e.data.email) && !Shown(e.data.userId) && !Shown(e.data.ip) && !Shown(e.data.details)
  {
    Join(Parts(e), " | ")
  }

  /** Every shown field appears in the line as `label=value`. */
  lemma FormatEventShowsFields(e: SecurityEvent)
    ensures Shown(e.data.email) ==> Occurs("email=" + e.data.email.value, FormatEvent(e))
    ensures Shown(e.data.userId) ==> Occurs("userId=" + e.data.userId.value, FormatEvent(e))
    ensures Shown(e.data.ip) ==> Occurs("ip=" + e.data.ip.value, FormatEvent(e))
    ensures Shown(e.data.details) ==> Occurs("details=" + e.data.details.value, FormatEvent(e))
  {
    var ps := Parts(e);
    forall x | x in ps ensures Occurs(x, FormatEvent(e)) {
      var i :| 0 <= i < |ps| && ps[i] == x;
      JoinContainsParts(ps, " | ", i);
    }
  }

  /** Joining a head in front of a non-empty list puts one separator between them. */
  lemma JoinCons(a: string, ps: seq<string>, sep: string)
    requires ps != []
    ensures Join([a] + ps, sep) == a + sep + Join(ps, sep)
  {
    assert ([a] + ps)[1..] == ps;
  }

  /** What a field adds to the line: `" | label=value"` when it is shown, nothing otherwise. */
  function Piece(tag: string, field: Option<string>): (r: string)
    ensures Shown(field) <==> r != []
  {
    if Shown(field) then " | " + tag + field.value else []
  }

  /** Folding one labelled part into the text before it. */
  lemma JoinFoldPiece(a: string, tag: string, field: Option<string>, rest: seq<string>)
    ensures Join([a] + (Labelled(tag, field) + rest), " | ") == Join([a + Piece(tag, field)] + rest, " | ")
  {
    if Shown(field) {
      var x := tag + field.value;
      assert Labelled(tag, field) + rest == [x] + rest;
      JoinCons(a, [x] + rest, " | ");
      if rest == [] {
        assert Join([x] + rest, " | ") == x;
        assert Join([a + Piece(tag, field)] + rest, " | ") == a + Piece(tag, field);
      } else {
        JoinCons(x, rest, " | ");
        JoinCons(a + Piece(tag, field), rest, " | ");
      }
    } else {
      assert Labelled(tag, field) + rest == rest;
      assert a + Piece(tag, field) == a;
    }
  }

  /** The whole line: the type, then `" | email="`, `" | userId="`, `" | ip="` and
      `" | details="` with their values, in that order, each only when the field is shown. */
  lemma FormatEventIsConcatenation(e: SecurityEvent)
    ensures FormatEvent(e) ==
      TypeName(e.data.kind)
        + Piece("email=", e.data.email)
        + Piece("userId=", e.data.userId)
        + Piece("ip=", e.data.ip)
        + Piece("details=", e.data.details)
  {
    var d := e.data;
    var l1, l2 := Labelled("email=", d.email), Labelled("userId=", d.userId);
    var l3, l4 := Labelled("ip=", d.ip), Labelled("details=", d.details);
    var t0 := TypeName(d.kind);
    assert Parts(e) == [t0] + (l1 + (l2 + (l3 + l4)));
    JoinFoldPiece(t0, "email=", d.email, l2 + (l3 + l4));
    var t1 := t0 + Piece("email=", d.email);
    JoinFoldPiece(t1, "userId=", d.userId, l3 + l4);
    var t2 := t1 + Piece("userId=", d.userId);
    JoinFoldPiece(t2, "ip=", d.ip, l4);
    var t3 := t2 + Piece("ip=", d.ip);
    assert l4 == l4 + [];
    JoinFoldPiece(t3, "details=", d.details, []);
    var t4 := t3 + Piece("details=", d.details);
    assert [t4] + [] == [t4];
  }

  /** The part order: a shown field comes right after the type when every field before it
      is hidden. */
  lemma FormatEventOrder(e: SecurityEvent)
    ensures Shown(e.data.email) ==>
              StartsWith(FormatEvent(e), TypeName(e.data.kind) + Piece("email=", e.data.email))
    ensures !Shown(e.data.email) && Shown(e.data.userId) ==>
              StartsWith(FormatEvent(e), TypeName(e.data.kind) + Piece("userId=", e.data.userId))
  {
    FormatEventIsConcatenation(e);
    var d := e.data;
    var t, p1, p2 := TypeName(d.kind), Piece("email=", d.email), Piece("userId=", d.userId);
    PrefixOfConcat(t, p1, p2, Piece("ip=", d.ip), Piece("details=", d.details));
    if !Shown(d.email) {
      assert t + p1 == t;
      PrefixOfConcat(t + p1, p2, Piece("ip=", d.ip), Piece("details=", d.details), []);
      assert t + p1 + p2 + Piece("ip=", d.ip) + Piece("details=", d.details) + [] == FormatEvent(e);
    }
  }

  // ---------------------------------------------------------------- the buffer

  /** `events.push(e)` followed by `events.shift()` when the buffer went over `MaxEvents`. */
  function PushBounded(events: seq<SecurityEvent>, e: SecurityEvent): (r: seq<SecurityEvent>)
    ensures |r| == if |events| < MaxEvents then |events| + 1 else |events|
    ensures r[|r| - 1] == e
    ensures r[..|r| - 1] == events[|events| - (|r| - 1)..]
  {
    var pushed := events + [e];
    if |pushed| > MaxEvents then pushed[1..] else pushed
  }

  /** Logging into a full buffer keeps its length at the bound; otherwise it grows by one.
      The new event is last, and the others are the old ones in order, less the oldest
      when the buffer was full. */
  lemma PushBoundedSpec(events: seq<SecurityEvent>, e: SecurityEvent)
    requires |events| <= MaxEvents
    ensures var r := PushBounded(events, e);
      |r| == (if |events| + 1 < MaxEvents then |events| + 1 else MaxEvents) &&
      r[|r| - 1] == e &&
      r[..|r| - 1] == events[|events| - (|r| - 1)..] &&
      (|events| < MaxEvents ==> r[..|r| - 1] == events)
  {
  }

  /** JavaScript's `s.slice(start)`: a negative start counts from the end, and `-0` is `0`. */
  function SliceFrom<T>(s: seq<T>, start: int): (r: seq<T>)
    ensures |r| <= |s| && r == s[|s| - |r|..]
  {
    if start >= 0 then (if start < |s| then s[start..] else [])
    else if |s| + start > 0 then s[|s| + start..] else s
  }

  /** The types `getSuspiciousEvents` selects. */
  const SuspiciousTypes: seq<EventType> :=
    [PasswordResetInvalidToken, UnauthorizedAccess, SuspiciousActivity, XssAttempt,
     SqlInjectionAttempt, RateLimitExceeded]

  predicate IsSuspicious(e: SecurityEvent)
  {
    e.data.kind in SuspiciousTypes
  }

  /** Every type logged at error level is a suspicious type. */
  lemma ErrorEventsAreSuspicious(t: EventType)
    requires GetLogLevel(t) == Error
    ensures t in SuspiciousTypes
  {
  }

  /** `SecurityLogger`: the buffer of recent events, updated in place by `log`. */
  class SecurityLogger {
    var events: seq<SecurityEvent>

    ghost predicate Valid()
      reads this
    {
      |events| <= MaxEvents
    }

    constructor ()
      ensures Valid() && events == []
    {
      events := [];
    }

    /** `log`: stamp the event, choose the console stream and line, and store it. */
    method Log(data: EventData, now: int) returns (level: LogLevel, line: string)
      requires Valid()
      modifies this
      ensures Valid()
      ensures events == PushBounded(old(events), SecurityEvent(data, now))
      ensures level == GetLogLevel(data.kind)
      ensures line == "[SECURITY] " + FormatEvent(SecurityEvent(data, now))
    {
      var full := SecurityEvent(data, now);
      level := GetLogLevel(data.kind);
      line := "[SECURITY] " + FormatEvent(full);
      events := events + [full];
      if |events| > MaxEvents {
        events := events[1..];
      }
    }

    /** `getRecentEvents(limit)`: `events.slice(-limit)`. */
    function GetRecentEvents(limit: int := 100): (r: seq<SecurityEvent>)
      reads this
      ensures limit >= 1 ==> r == events[|events| - (if limit < |events| then limit else |events|)..]
      ensures limit == 0 ==> r == events
      ensures limit < 0 ==> r == events[(if -limit < |events| then -limit else |events|)..]
    {
      SliceFrom(events, -limit)
    }

    /** `getSuspiciousEvents`: the suspicious events, in the order they were logged. */
    function GetSuspiciousEvents(): (r: seq<SecurityEvent>)
      reads this
      ensures forall e :: e in r <==> e in events && IsSuspicious(e)
      ensures IsSubsequence(r, events)
      ensures forall e :: e in events ==> multiset(r)[e] == if IsSuspicious(e) then multiset(events)[e] else 0
    {
      FilterIsSubsequence(events, IsSuspicious);
      FilterCounts(events, IsSuspicious);
      forall e | e in events && IsSuspicious(e) ensures e in Filter(events, IsSuspicious) {
        FilterKeepsEverySelected(events, IsSuspicious, e);
      }
      Filter(events, IsSuspicious)
    }
  }

  /** What `log` does to the suspicious events: a suspicious event is appended as the last
      one reported, any other event adds nothing, and when the buffer was full the oldest
      event falls out first. */
  lemma SuspiciousAfterLog(events: seq<SecurityEvent>, e: SecurityEvent)
    requires |events| <= MaxEvents
    ensures var kept := if |events| < MaxEvents then events else events[1..];
      Filter(PushBounded(events, e), IsSuspicious) ==
        Filter(kept, IsSuspicious) + (if IsSuspicious(e) then [e] else [])
  {
    var kept := if |events| < MaxEvents then events else events[1..];
    assert PushBounded(events, e) == kept + [e];
    FilterAppend(kept, [e], IsSuspicious);
    assert Filter([e], IsSuspicious) == (if IsSuspicious(e) then [e] else []) by {
      assert [e][1..] == [];
    }
  }

  // ---------------------------------------------------------------- logSecurityEvent

  /** `logSecurityEvent.authSuccess(email, ip)`. */
  method LogAuthSuccess(logger: SecurityLogger, email: string, ip: Option<string>, now: int)
    requires logger.Valid()
    modifies logger
    ensures logger.Valid()
    ensures logger.events ==
      PushBounded(old(logger.events), SecurityEvent(EventData(AuthSuccess, None, Some(email), ip, None, None), now))
  {
    var _, _ := logger.Log(EventData(AuthSuccess, None, Some(email), ip, None, None), now);
  }

  /** `logSecurityEvent.authFailure(email, ip, details)`. */
  method LogAuthFailure(logger: SecurityLogger, email: string, ip: Option<string>, details: Option<string>, now: int)
    requires logger.Valid()
    modifies logger
    ensures logger.Valid()
    ensures logger.events ==
      PushBounded(old(logger.events), SecurityEvent(EventData(AuthFailure, None, Some(email), ip, None, details), now))
  {
    var _, _ := logger.Log(EventData(AuthFailure, None, Some(email), ip, None, details), now);
  }

  /** `logSecurityEvent.registerSuccess(email, userId, ip)`. */
  method LogRegisterSuccess(logger: SecurityLogger, email: string, userId: string, ip: Option<string>, now: int)
    requires logger.Valid()
    modifies logger
    ensures logger.Valid()
    ensures logger.events ==
      PushBounded(old(logger.events),
        SecurityEvent(EventData(RegisterSuccess, Some(userId), Some(email), ip, None, None), now))
  {
    var _, _ := logger.Log(EventData(RegisterSuccess, Some(userId), Some(email), ip, None, None), now);
  }

  /** `logSecurityEvent.passwordResetRequest(email, ip)`. */
  method LogPasswordResetRequest(logger: SecurityLogger, email: string, ip: Option<string>, now: int)
    requires logger.Valid()
    modifies logger
    ensures logger.Valid()
    ensures logger.events ==
      PushBounded(old(logger.events),
        SecurityEvent(EventData(PasswordResetRequest, None, Some(email), ip, None, None), now))
  {
    var _, _ := logger.Log(EventData(PasswordResetRequest, None, Some(email), ip, None, None), now);
  }

  /** `logSecurityEvent.passwordResetSuccess(email, userId, ip)`. */
  method LogPasswordResetSuccess(logger: SecurityLogger, email: string, userId: string, ip: Option<string>, now: int)
    requires logger.Valid()
    modifies logger
    ensures logger.Valid()
    ensures logger.events ==
      PushBounded(old(logger.events),
        SecurityEvent(EventData(PasswordResetSuccess, Some(userId), Some(email), ip, None, None), now))
  {
    var _, _ := logger.Log(EventData(PasswordResetSuccess, Some(userId), Some(email), ip, None, None), now);
  }

  /** The fixed details of an invalid reset-token event. */
  const InvalidTokenDetails := "Tentative avec un token invalide"

  /** `logSecurityEvent.invalidResetToken(ip)`. */
  method LogInvalidResetToken(logger: SecurityLogger, ip: Option<string>, now: int)
    requires logger.Valid()
    modifies logger
    ensures logger.Valid()
    ensures logger.events ==
      PushBounded(old(logger.events),
        SecurityEvent(EventData(PasswordResetInvalidToken, None, None, ip, None, Some(InvalidTokenDetails)), now))
  {
    var _, _ := logger.Log(EventData(PasswordResetInvalidToken, None, None, ip, None, Some(InvalidTokenDetails)), now);
  }

  /** `logSecurityEvent.rateLimitExceeded(ip, endpoint)`. */
  method LogRateLimitExceeded(logger: SecurityLogger, ip: string, endpoint: string, now: int)
    requires logger.Valid()
    modifies logger
    ensures logger.Valid()
    ensures logger.events ==
      PushBounded(old(logger.events),
        SecurityEvent(EventData(RateLimitExceeded, None, None, Some(ip), None, Some("Endpoint: " + endpoint)), now))
  {
    var _, _ := logger.Log(EventData(RateLimitExceeded, None, None, Some(ip), None, Some("Endpoint: " + endpoint)), now);
  }

  /** `logSecurityEvent.unauthorizedAccess(userId, ip, details)`. */
  method LogUnauthorizedAccess(
    logger: SecurityLogger, userId: Option<string>, ip: Option<string>, details: Option<string>, now: int)
    requires logger.Valid()
    modifies logger
    ensures logger.Valid()
    ensures logger.events ==
      PushBounded(old(logger.events), SecurityEvent(EventData(UnauthorizedAccess, userId, None, ip, None, details), now))
  {
    var _, _ := logger.Log(EventData(UnauthorizedAccess, userId, None, ip, None, details), now);
  }
}
