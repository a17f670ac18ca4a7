/** The append-only audit log (backend/internal/repository/audit_repository.go). */
module Audit {
  import opened Basics

  datatype AuditAction =
    | TraceImported | EventsDetected | EventReviewed
    | CaseCreated | AnalysisStarted | AnalysisRecovered | AnalysisFailed | AnalysisCompleted
    | CaseConfirmed | CaseClosed

  datatype AuditEntry = AuditEntry(action: AuditAction, actor: nat, requestId: string)

  /** The characters trimmed from a request id: Unicode white space. */
  predicate IsSpace(c: char) {
    || '\t' <= c <= '\r' || c == ' ' || c == '\U{0085}' || c == '\U{00A0}' || c == '\U{1680}'
    || '\U{2000}' <= c <= '\U{200A}' || c == '\U{2028}' || c == '\U{2029}' || c == '\U{202F}'
    || c == '\U{205F}' || c == '\U{3000}'
  }

  /** The code points of Unicode white space. */
  const SPACES := {0x09, 0x0A, 0x0B, 0x0C, 0x0D, 0x20, 0x85, 0xA0, 0x1680, 0x2000, 0x2001, 0x2002, 0x2003, 0x2004, 0x2005,
                   0x2006, 0x2007, 0x2008, 0x2009, 0x200A, 0x2028, 0x2029, 0x202F, 0x205F, 0x3000}

  lemma SpaceIff(c: char)
    ensures IsSpace(c) <==> c as int in SPACES
  {}

  /** A request id that is empty once trimmed. */
  predicate Blank(requestId: string) {
    forall i | 0 <= i < |requestId| :: IsSpace(requestId[i])
  }

  /** The log after an insertion; an entry without a request id is refused. */
  function Logged(log: seq<AuditEntry>, entry: AuditEntry): Option<seq<AuditEntry>> {
    if Blank(entry.requestId) then None else Some(log + [entry])
  }

  /** A log takes an entry at its end exactly when the request id has a character that is no white space. */
  lemma LoggedIff(log: seq<AuditEntry>, entry: AuditEntry)
    ensures Logged(log, entry).Some? <==> exists i :: 0 <= i < |entry.requestId| && entry.requestId[i] as int !in SPACES
    ensures Logged(log, entry).Some? ==> Logged(log, entry).value == log + [entry]
  {
    forall i | 0 <= i < |entry.requestId| ensures IsSpace(entry.requestId[i]) <==> entry.requestId[i] as int in SPACES {
      SpaceIff(entry.requestId[i]);
    }
    hide IsSpace;
  }
}
