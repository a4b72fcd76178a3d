/** The identity of a loop request: every component derives it from a payload and a fallback
    of its own choosing.  SHA-1 and redaction are parameters. */
module RequestIdentity {
  import opened Text

  /** The payload fields the identity depends on, as text; "" stands for a missing one. */
  datatype Payload = Payload(
    loopRequestId: string, requestId: string, triggerId: string, invocationId: string,
    fingerprint: string, sourceEventId: string, mode: string)

  function Or(a: string, b: string): string { if a != "" then a else b }

  /** `"|".join(part for part in parts if part)`. */
  function Join(a: string, b: string): string {
    if a == "" then b else if b == "" then a else a + "|" + b
  }

  function Explicit(p: Payload): string { Strip(Or(p.loopRequestId, p.requestId)) }

  /** The part of the seed that a payload without an explicit id contributes itself. */
  function Origin(p: Payload): string { Join(Strip(Or(p.triggerId, p.invocationId)), Strip(p.fingerprint)) }

  function Seed(p: Payload, fallback: string): string { Or(Join(Origin(p), fallback), fallback) }

  /** `loop_request_id_from_payload`; `digest` gives the first twelve hexadecimal digits. */
  function LoopRequestId(digest: string -> string, p: Payload, fallback: string): string {
    if Explicit(p) != "" then Explicit(p) else "arlp-" + digest(Seed(p, fallback))
  }

  /** What is assumed of a truncated digest: twelve characters, none of them white space. */
  ghost predicate IsDigest(digest: string -> string) {
    forall s: string :: |digest(s)| == 12 && forall k :: 0 <= k < 12 ==> !IsSpace(digest(s)[k])
  }

  ghost predicate Injective(digest: string -> string) {
    forall s: string, t: string :: digest(s) == digest(t) ==> s == t
  }

  /** What is assumed of redaction: it is idempotent, and turns a trimmed non-empty text
      into one. */
  ghost predicate IsRedaction(redact: string -> string) {
    forall s: string ::
      redact(redact(s)) == redact(s) && (s != "" && Trimmed(s) ==> redact(s) != "" && Trimmed(redact(s)))
  }

  /** `build_loop_request_payload`, as far as the identity goes. */
  function Build(digest: string -> string, redact: string -> string, trigger: Payload, source: string): Payload {
    Payload(redact(LoopRequestId(digest, trigger, source)), "",
            redact(Strip(Or(trigger.triggerId, source))), redact(Strip(trigger.invocationId)),
            redact(Strip(trigger.fingerprint)), redact(source), redact(trigger.mode))
  }

  // ---------------------------------------------------------------------
  // The consumers
  // ---------------------------------------------------------------------

  /** Planning, the worktree, the archived output directory, the pending and handled sets
      and the projection: the fallback is the id of the event that carries the payload. */
  function PlanId(digest: string -> string, p: Payload, eventId: string): string { LoopRequestId(digest, p, eventId) }

  /** `_command_for_request`: the directory the loop writes to. */
  function CommandId(digest: string -> string, p: Payload): string { LoopRequestId(digest, p, "request") }

  /** `build_research_mode_artifact_envelope`. */
  function EnvelopeId(digest: string -> string, redact: string -> string, p: Payload): string {
    redact(LoopRequestId(digest, p, Or(p.sourceEventId, p.mode)))
  }

  /** A lifecycle event the resident writes carries the planned id. */
  function LifecyclePayload(id: string): Payload { Payload(id, "", "", "", "", "", "") }

  /** Which field decides: loop_request_id before request_id, and even a blank one hides the
      other; then the digest of trigger_id, or else invocation_id, and the fingerprint. */
  lemma Precedence(digest: string -> string, p: Payload, fallback: string)
    ensures var id := LoopRequestId(digest, p, fallback);
      && (Strip(p.loopRequestId) != "" ==> id == Strip(p.loopRequestId))
      && (p.loopRequestId == "" && Strip(p.requestId) != "" ==> id == Strip(p.requestId))
      && (p.loopRequestId != "" && Strip(p.loopRequestId) == "" ==> id == "arlp-" + digest(Seed(p, fallback)))
      && (p.loopRequestId == "" && Strip(p.requestId) == "" ==> id == "arlp-" + digest(Seed(p, fallback)))
    ensures var trigger := Strip(if p.triggerId != "" then p.triggerId else p.invocationId);
      var mark := Strip(p.fingerprint);
      && (trigger == "" && mark == "" ==> Seed(p, fallback) == fallback)
      && (trigger != "" && mark != "" && fallback != "" ==> Seed(p, fallback) == trigger + "|" + mark + "|" + fallback)
      && (trigger != "" && mark == "" && fallback != "" ==> Seed(p, fallback) == trigger + "|" + fallback)
      && (trigger == "" && mark != "" && fallback != "" ==> Seed(p, fallback) == mark + "|" + fallback)
      && (trigger != "" && mark != "" && fallback == "" ==> Seed(p, fallback) == trigger + "|" + mark)
  {
    assert Strip("") == "";
  }

  lemma IdTrimmed(digest: string -> string, p: Payload, fallback: string)
    requires IsDigest(digest)
    ensures LoopRequestId(digest, p, fallback) != "" && Trimmed(LoopRequestId(digest, p, fallback))
  {
    StripTrims(Or(p.loopRequestId, p.requestId));
    var id := "arlp-" + digest(Seed(p, fallback));
    assert id[0] == 'a' && id[|id| - 1] == digest(Seed(p, fallback))[11];
  }

  lemma ExplicitWins(digest: string -> string, p: Payload, fallback: string)
    requires p.loopRequestId != "" && Trimmed(p.loopRequestId)
    ensures LoopRequestId(digest, p, fallback) == p.loopRequestId
  {
    StripTrims(p.loopRequestId);
  }

  /** For every payload the supervisor builds, whatever triggered it, all components agree
      on one non-empty id: plan, command, envelope, and every lifecycle event. */
  lemma BuiltPayloadCoherent(digest: string -> string, redact: string -> string, trigger: Payload,
                             source: string, eventId: string, laterId: string)
    requires IsDigest(digest) && IsRedaction(redact)
    ensures var p := Build(digest, redact, trigger, source);
      var id := PlanId(digest, p, eventId);
      && id != "" && id == redact(LoopRequestId(digest, trigger, source))
      && CommandId(digest, p) == id
      && EnvelopeId(digest, redact, p) == id
      && PlanId(digest, LifecyclePayload(id), laterId) == id
  {
    IdTrimmed(digest, trigger, source);
    var p := Build(digest, redact, trigger, source);
    ExplicitWins(digest, p, eventId);
    ExplicitWins(digest, p, "request");
    ExplicitWins(digest, p, Or(p.sourceEventId, p.mode));
    ExplicitWins(digest, LifecyclePayload(p.loopRequestId), laterId);
  }

  lemma JoinLast(a: string, b: string, c: string)
    ensures Join(a, b) == Join(a, c) <==> b == c
  {
    if a != "" && b != "" && c != "" {
      assert (a + "|" + b)[|a| + 1..] == b && (a + "|" + c)[|a| + 1..] == c;
    } else if a != "" {
      assert |a + "|" + b| == |a| + 1 + |b| && |a + "|" + c| == |a| + 1 + |c|;
    }
  }

  /** For any payload at all, the directory a loop writes to is the one that is archived
      exactly when the payload has an explicit id, or the event is called "request". */
  lemma WrittenIsArchivedExactly(digest: string -> string, p: Payload, eventId: string)
    requires Injective(digest)
    ensures CommandId(digest, p) == PlanId(digest, p, eventId) <==> Explicit(p) != "" || eventId == "request"
  {
    JoinLast(Origin(p), "request", eventId);
    if Explicit(p) == "" {
      assert CommandId(digest, p) == "arlp-" + digest(Seed(p, "request"));
      assert CommandId(digest, p)[5..] == digest(Seed(p, "request"));
      assert PlanId(digest, p, eventId)[5..] == digest(Seed(p, eventId));
      assert Seed(p, "request") == Join(Origin(p), "request");
      assert Seed(p, eventId) == Join(Origin(p), eventId);
    }
  }

  lemma JoinFirst(a: string, b: string, c: string)
    requires c != ""
    ensures Join(a, c) == Join(b, c) <==> a == b
  {
    assert |a + "|" + c| == |a| + 1 + |c| && |b + "|" + c| == |b| + 1 + |c|;
    if a != "" && b != "" && |a| == |b| {
      assert (a + "|" + c)[..|a|] == a && (b + "|" + c)[..|b|] == b;
    }
  }

  /** Two requests without an explicit id write to one directory exactly when trigger and
      fingerprint give them the same origin; their event ids do not matter. */
  lemma DirectoryShared(digest: string -> string, p: Payload, q: Payload)
    requires Injective(digest) && Explicit(p) == Explicit(q) == ""
    ensures CommandId(digest, p) == CommandId(digest, q) <==> Origin(p) == Origin(q)
  {
    JoinFirst(Origin(p), Origin(q), "request");
    assert CommandId(digest, p)[5..] == digest(Seed(p, "request"));
    assert CommandId(digest, q)[5..] == digest(Seed(q, "request"));
  }

  /** Requests without an explicit id, trigger or fingerprint, as the loop actions emit
      them, have their own plan ids but all write to one shared directory. */
  lemma BareRequestsShareDirectory(digest: string -> string, p: Payload, q: Payload, eventId: string, otherId: string)
    requires Injective(digest) && eventId != otherId
    requires Explicit(p) == Explicit(q) == "" && Strip(p.fingerprint) == Strip(q.fingerprint) == ""
    requires Strip(Or(p.triggerId, p.invocationId)) == Strip(Or(q.triggerId, q.invocationId)) == ""
    ensures CommandId(digest, p) == CommandId(digest, q)
    ensures PlanId(digest, p, eventId) != PlanId(digest, q, otherId)
  {
    DirectoryShared(digest, p, q);
    assert PlanId(digest, p, eventId)[5..] == digest(eventId) && PlanId(digest, q, otherId)[5..] == digest(otherId);
  }
}
