/** The in-memory implementation of the storage interface: three maps, from transcript id
    to transcript, from summary id to summary, and from summary id to the list of email logs
    sent for it. Ids come from a supply that never repeats an id already in use (a uuid in
    the application) and timestamps from a clock; both are parameters here. */
module Storage {
  import opened Wrappers
  import opened Schema

  /** A summary together with the transcript it refers to: `{ ...summary, transcript }`. */
  datatype SummaryWithTranscript = SummaryWithTranscript(summary: Summary, transcript: Transcript)

  /** The logs filed for a summary: `emailLogs.get(summaryId) || []`. */
  function LogsFor(logs: map<string, seq<EmailLog>>, summaryId: string): (r: seq<EmailLog>)
    ensures summaryId !in logs ==> r == []
  {
    if summaryId in logs then logs[summaryId] else []
  }

  /** What `getSummaryWithTranscript` finds: nothing when the summary is missing or its
      transcript is; otherwise the summary joined with its transcript. */
  function Joined(transcripts: map<string, Transcript>, summaries: map<string, Summary>, id: string)
    : (r: Option<SummaryWithTranscript>)
    ensures r.Some? <==> id in summaries && summaries[id].transcriptId in transcripts
    ensures r.Some? ==>
      r.value.summary == summaries[id] && r.value.transcript == transcripts[summaries[id].transcriptId]
  {
    if id !in summaries then None
    else if summaries[id].transcriptId !in transcripts then None
    else Some(SummaryWithTranscript(summaries[id], transcripts[summaries[id].transcriptId]))
  }

  /** The record `updateSummary` writes: `{ ...summary, ...update, updatedAt: now }`. Only
      the edited text and the update time differ from the stored record. */
  function Updated(s: Summary, u: UpdateSummary, now: Timestamp): (r: Summary)
    ensures r.id == s.id && r.transcriptId == s.transcriptId && r.customPrompt == s.customPrompt
    ensures r.generatedSummary == s.generatedSummary && r.createdAt == s.createdAt
    ensures r.editedSummary == Some(u.editedSummary) && r.updatedAt == now
  {
    s.(editedSummary := Some(u.editedSummary), updatedAt := now)
  }

  /** Applying the same update twice leaves the same record as applying it once at the
      later time; in particular the stored edited text is the same. */
  lemma UpdateIdempotent(s: Summary, u: UpdateSummary, t1: Timestamp, t2: Timestamp)
    ensures Updated(Updated(s, u, t1), u, t2) == Updated(s, u, t2)
    ensures Updated(Updated(s, u, t1), u, t2).editedSummary == Updated(s, u, t1).editedSummary
  {
  }

  class InMemoryStorage {
    var transcripts: map<string, Transcript>
    var summaries: map<string, Summary>
    var emailLogs: map<string, seq<EmailLog>>

    /** Every record is filed under its own id, every email log under the id of its
        summary, and every email log has status "sent". */
    ghost predicate Valid()
      reads this
    {
      && (forall k | k in transcripts :: transcripts[k].id == k)
      && (forall k | k in summaries :: summaries[k].id == k)
      && (forall k | k in emailLogs :: forall l | l in emailLogs[k] :: l.summaryId == k && l.status == SentStatus)
    }

    constructor ()
      ensures Valid()
      ensures transcripts == map[] && summaries == map[] && emailLogs == map[]
    {
      transcripts, summaries, emailLogs := map[], map[], map[];
    }

    /** `createTranscript`: stores the insert's fields under the fresh id, stamped `now`. */
    method CreateTranscript(ins: InsertTranscript, id: string, now: Timestamp) returns (t: Transcript)
      requires Valid()
      requires id !in transcripts
      modifies this
      ensures Valid()
      ensures t.id == id && t.content == ins.content && t.fileName == ins.fileName && t.uploadedAt == now
      ensures transcripts == old(transcripts)[id := t]
      ensures summaries == old(summaries) && emailLogs == old(emailLogs)
    {
      t := Transcript(id, ins.content, ins.fileName, now);
      transcripts := transcripts[id := t];
    }

    /** `getTranscript`: the transcript filed under `id`, or nothing. */
    method GetTranscript(id: string) returns (r: Option<Transcript>)
      ensures r.None? <==> id !in transcripts
      ensures r.Some? ==> r.value == transcripts[id]
      ensures Valid() && r.Some? ==> r.value.id == id
    {
      r := if id in transcripts then Some(transcripts[id]) else None;
    }

    /** `createSummary`: stores the insert's fields under the fresh id. The creation and the
        update time are two separate readings of the clock. */
    method CreateSummary(ins: InsertSummary, id: string, createdAt: Timestamp, updatedAt: Timestamp)
      returns (s: Summary)
      requires Valid()
      requires id !in summaries
      modifies this
      ensures Valid()
      ensures s.id == id && s.transcriptId == ins.transcriptId && s.customPrompt == ins.customPrompt
      ensures s.generatedSummary == ins.generatedSummary && s.editedSummary == ins.editedSummary
      ensures s.createdAt == createdAt && s.updatedAt == updatedAt
      ensures summaries == old(summaries)[id := s]
      ensures transcripts == old(transcripts) && emailLogs == old(emailLogs)
    {
      s := Summary(id, ins.transcriptId, ins.customPrompt, ins.generatedSummary, ins.editedSummary, createdAt, updatedAt);
      summaries := summaries[id := s];
    }

    /** `getSummary`: the summary filed under `id`, or nothing. */
    method GetSummary(id: string) returns (r: Option<Summary>)
      ensures r.None? <==> id !in summaries
      ensures r.Some? ==> r.value == summaries[id]
      ensures Valid() && r.Some? ==> r.value.id == id
    {
      r := if id in summaries then Some(summaries[id]) else None;
    }

    /** `getSummaryWithTranscript`: nothing when the summary or its transcript is missing. */
    method GetSummaryWithTranscript(id: string) returns (r: Option<SummaryWithTranscript>)
      ensures r == Joined(transcripts, summaries, id)
    {
      if id !in summaries {
        return None;
      }
      var summary := summaries[id];
      if summary.transcriptId !in transcripts {
        return None;
      }
      r := Some(SummaryWithTranscript(summary, transcripts[summary.transcriptId]));
    }

    /** `updateSummary`: on an unknown id nothing changes and nothing is returned; otherwise
        only `editedSummary` and `updatedAt` of that one summary change. */
    method UpdateSummary(id: string, u: UpdateSummary, now: Timestamp) returns (r: Option<Summary>)
      requires Valid()
      modifies this
      ensures Valid()
      ensures r.None? <==> id !in old(summaries)
      ensures r.None? ==> unchanged(this)
      ensures r.Some? ==>
        var o, s := old(summaries)[id], r.value;
        && s.id == o.id && s.transcriptId == o.transcriptId && s.customPrompt == o.customPrompt
        && s.generatedSummary == o.generatedSummary && s.createdAt == o.createdAt
        && s.editedSummary == Some(u.editedSummary) && s.updatedAt == now
        && summaries == old(summaries)[id := s]
      ensures transcripts == old(transcripts) && emailLogs == old(emailLogs)
    {
      if id !in summaries {
        return None;
      }
      var updated := Updated(summaries[id], u, now);
      summaries := summaries[id := updated];
      r := Some(updated);
    }

    /** `createEmailLog`: appends a log with status "sent" to the end of its summary's list;
        earlier entries and every other summary's list stay as they were. */
    method CreateEmailLog(ins: InsertEmailLog, id: string, now: Timestamp) returns (log: EmailLog)
      requires Valid()
      modifies this
      ensures Valid()
      ensures log.id == id && log.summaryId == ins.summaryId && log.recipients == ins.recipients
      ensures log.subject == ins.subject && log.message == ins.message
      ensures log.includeOriginal == ins.includeOriginal && log.sentAt == now && log.status == SentStatus
      ensures LogsFor(emailLogs, ins.summaryId) == LogsFor(old(emailLogs), ins.summaryId) + [log]
      ensures forall k | k != ins.summaryId :: LogsFor(emailLogs, k) == LogsFor(old(emailLogs), k)
      ensures emailLogs.Keys == old(emailLogs).Keys + {ins.summaryId}
      ensures transcripts == old(transcripts) && summaries == old(summaries)
    {
      log := EmailLog(id, ins.summaryId, ins.recipients, ins.subject, ins.message, ins.includeOriginal, now, SentStatus);
      var logs := LogsFor(emailLogs, ins.summaryId);
      emailLogs := emailLogs[ins.summaryId := logs + [log]];
    }

    /** `getEmailLogsBySummary`: the summary's logs in the order they were created; none
        for a summary that has no logs. */
    method GetEmailLogsBySummary(summaryId: string) returns (logs: seq<EmailLog>)
      ensures logs == LogsFor(emailLogs, summaryId)
    {
      logs := LogsFor(emailLogs, summaryId);
    }
  }
}
