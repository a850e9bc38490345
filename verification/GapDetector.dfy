/** Duplicate suppression and exact gap reporting on one packet session. */
module GapDetection {
  import opened Bits

  datatype PacketStatus = Accepted | DuplicateOrOld | WrongSession

  /** The missing range is inclusive; both ends are zero when there is no gap. */
  datatype CheckResult = CheckResult(status: PacketStatus, gap: u64, firstMissing: u64, lastMissing: u64)

  datatype Detector = Detector(activeSession: u32, lastSequence: u64) {
    function Status(sessionId: u32, sequence: u64): PacketStatus {
      if activeSession == 0 then Accepted
      else if sessionId != activeSession then WrongSession
      else if sequence <= lastSequence then DuplicateOrOld
      else Accepted
    }

    function After(sessionId: u32, sequence: u64): Detector {
      if Status(sessionId, sequence).Accepted? then Detector(sessionId, sequence) else this
    }

    /** What check reports; the differences wrap at 64 bits. */
    function Report(sessionId: u32, sequence: u64): CheckResult {
      var status := Status(sessionId, sequence);
      var gap := Sub64(Sub64(sequence, lastSequence), 1);
      if status.Accepted? && gap > 0
      then CheckResult(status, gap, Add64(lastSequence, 1), Sub64(sequence, 1))
      else CheckResult(status, 0, 0, 0)
    }

    /** No session is pinned before the first packet. */
    predicate Sound() {
      activeSession == 0 ==> lastSequence == 0
    }
  }

  class GapDetector {
    var activeSession: u32
    var lastSequence: u64

    constructor ()
      ensures State() == Detector(0, 0)
    {
      activeSession, lastSequence := 0, 0;
    }

    function State(): Detector
      reads this
    {
      Detector(activeSession, lastSequence)
    }

    method Check(sessionId: u32, sequence: u64) returns (r: CheckResult)
      modifies this
      ensures r == old(State()).Report(sessionId, sequence)
      ensures State() == old(State()).After(sessionId, sequence)
    {
      var status, gap, firstMissing, lastMissing := Accepted, 0, 0, 0;
      if activeSession == 0 {
        activeSession := sessionId;
      } else if sessionId != activeSession {
        return CheckResult(WrongSession, 0, 0, 0);
      } else if sequence <= lastSequence {
        return CheckResult(DuplicateOrOld, 0, 0, 0);
      }
      gap := Sub64(Sub64(sequence, lastSequence), 1);
      if gap > 0 {
        firstMissing := Add64(lastSequence, 1);
        lastMissing := Sub64(sequence, 1);
      }
      lastSequence := sequence;
      return CheckResult(status, gap, firstMissing, lastMissing);
    }
  }

  datatype PacketId = PacketId(sessionId: u32, sequence: u64)

  /** The decoder lets no other identities through. */
  predicate Nonzero(packets: seq<PacketId>) {
    forall i :: 0 <= i < |packets| ==> packets[i].sessionId != 0 && packets[i].sequence != 0
  }

  function Final(d: Detector, packets: seq<PacketId>): Detector
    decreases |packets|
  {
    if packets == [] then d else Final(d.After(packets[0].sessionId, packets[0].sequence), packets[1..])
  }

  /** The reports a run of packets produces, in order. */
  function Reports(d: Detector, packets: seq<PacketId>): (r: seq<CheckResult>)
    ensures |r| == |packets|
    decreases |packets|
  {
    if packets == [] then []
    else [d.Report(packets[0].sessionId, packets[0].sequence)]
         + Reports(d.After(packets[0].sessionId, packets[0].sequence), packets[1..])
  }

  /** The sequences a run of packets accepts, in order. */
  function AcceptedSequences(d: Detector, packets: seq<PacketId>): seq<u64>
    decreases |packets|
  {
    if packets == [] then []
    else (if d.Status(packets[0].sessionId, packets[0].sequence).Accepted? then [packets[0].sequence] else [])
         + AcceptedSequences(d.After(packets[0].sessionId, packets[0].sequence), packets[1..])
  }

  /** How many of the reported missing ranges contain n. */
  function RangesWith(reports: seq<CheckResult>, n: u64): nat {
    if reports == [] then 0
    else (if reports[0].gap > 0 && reports[0].firstMissing <= n <= reports[0].lastMissing then 1 else 0)
         + RangesWith(reports[1..], n)
  }

  function TotalGap(reports: seq<CheckResult>): nat {
    if reports == [] then 0 else reports[0].gap + TotalGap(reports[1..])
  }

  predicate Increasing(s: seq<u64>) {
    forall i, j :: 0 <= i < j < |s| ==> s[i] < s[j]
  }

  /** How often n is accounted for, as an accepted sequence or inside a missing range. */
  function Accounted(d: Detector, packets: seq<PacketId>, n: u64): nat {
    multiset(AcceptedSequences(d, packets))[n] + RangesWith(Reports(d, packets), n)
  }

  /** One accepted packet accounts for exactly the sequences between the old and the new mark. */
  lemma CheckCovers(d: Detector, sessionId: u32, sequence: u64)
    requires d.Sound() && sessionId != 0 && sequence != 0
    ensures var e := d.After(sessionId, sequence);
      var report := d.Report(sessionId, sequence);
      && e.Sound() && d.lastSequence <= e.lastSequence
      && (report.status.Accepted? ==>
            && d.lastSequence < sequence == e.lastSequence
            && report.gap == sequence - d.lastSequence - 1
            && (report.gap > 0 ==> report.firstMissing == d.lastSequence + 1 && report.lastMissing == sequence - 1))
      && (!report.status.Accepted? ==> e == d && report.gap == 0)
  {
  }

  /** Every sequence the detector has moved past is accounted for exactly once, and none beyond. */
  lemma {:induction false} Partition(d: Detector, packets: seq<PacketId>, n: u64)
    requires Nonzero(packets) && d.Sound()
    ensures Final(d, packets).Sound() && d.lastSequence <= Final(d, packets).lastSequence
    ensures Accounted(d, packets, n) == (if d.lastSequence < n <= Final(d, packets).lastSequence then 1 else 0)
    decreases |packets|
  {
    if packets == [] {
      assert multiset(AcceptedSequences(d, packets))[n] == 0;
    } else {
      var id, rest := packets[0], packets[1..];
      CheckCovers(d, id.sessionId, id.sequence);
      Partition(d.After(id.sessionId, id.sequence), rest, n);
      AccountedStep(d, id, rest, n);
      assert [id] + rest == packets;
    }
  }

  /** Accepted sequences rise strictly; gap sizes plus acceptances add up to the distance covered,
      so neither sum can wrap. */
  lemma {:induction false} AcceptedRise(d: Detector, packets: seq<PacketId>)
    requires Nonzero(packets) && d.Sound()
    ensures Increasing(AcceptedSequences(d, packets))
    ensures forall i :: 0 <= i < |AcceptedSequences(d, packets)| ==>
      d.lastSequence < AcceptedSequences(d, packets)[i] <= Final(d, packets).lastSequence
    ensures TotalGap(Reports(d, packets)) + |AcceptedSequences(d, packets)| ==
      Final(d, packets).lastSequence - d.lastSequence
    decreases |packets|
  {
    if packets != [] {
      var id, rest := packets[0], packets[1..];
      CheckCovers(d, id.sessionId, id.sequence);
      var e := d.After(id.sessionId, id.sequence);
      AcceptedRise(e, rest);
      assert Reports(d, packets)[1..] == Reports(e, rest);
    }
  }

  /** One more packet in front adds what its own check accounts for. */
  lemma AccountedStep(d: Detector, id: PacketId, rest: seq<PacketId>, n: u64)
    ensures var e := d.After(id.sessionId, id.sequence);
      var report := d.Report(id.sessionId, id.sequence);
      Accounted(d, [id] + rest, n) ==
        Accounted(e, rest, n)
        + (if report.status.Accepted? && n == id.sequence then 1 else 0)
        + (if report.gap > 0 && report.firstMissing <= n <= report.lastMissing then 1 else 0)
  {
    var e := d.After(id.sessionId, id.sequence);
    var packets := [id] + rest;
    assert packets[0] == id && packets[1..] == rest;
    var tail := AcceptedSequences(e, rest);
    assert Reports(d, packets)[1..] == Reports(e, rest);
    if d.Status(id.sessionId, id.sequence).Accepted? {
      assert AcceptedSequences(d, packets) == [id.sequence] + tail;
      assert multiset([id.sequence] + tail) == multiset{id.sequence} + multiset(tail);
    } else {
      assert AcceptedSequences(d, packets) == tail;
    }
  }

  // ---- the verdicts, said without the detector ----------------------------------------------

  /** The greatest sequence that a run of packets carries under one session. */
  function HighMark(packets: seq<PacketId>, sessionId: u32): (mark: u64)
    ensures forall i :: 0 <= i < |packets| && packets[i].sessionId == sessionId ==> packets[i].sequence <= mark
    ensures mark > 0 ==> exists i :: 0 <= i < |packets| && packets[i] == PacketId(sessionId, mark)
  {
    if packets == [] then 0
    else
      var shorter, last := packets[..|packets| - 1], packets[|packets| - 1];
      var mark := HighMark(shorter, sessionId);
      assert mark > 0 ==>
        exists i :: 0 <= i < |shorter| && shorter[i] == PacketId(sessionId, mark) && packets[i] == shorter[i];
      if last.sessionId == sessionId && last.sequence > mark then last.sequence else mark
  }

  /** The first packet chooses the session; a later one is new if it belongs to that session and
      exceeds every sequence that came before it there. */
  ghost predicate IsNew(earlier: seq<PacketId>, id: PacketId) {
    earlier != [] ==>
      && id.sessionId == earlier[0].sessionId
      && forall j :: 0 <= j < |earlier| && earlier[j].sessionId == id.sessionId ==> earlier[j].sequence < id.sequence
  }

  ghost predicate IsForeign(earlier: seq<PacketId>, id: PacketId) {
    earlier != [] && id.sessionId != earlier[0].sessionId
  }

  /** A fresh detector remembers the first packet's session and the greatest sequence under it. */
  lemma {:induction false} RemembersHighMark(packets: seq<PacketId>)
    requires Nonzero(packets) && packets != []
    ensures Final(Detector(0, 0), packets) == Detector(packets[0].sessionId, HighMark(packets, packets[0].sessionId))
    decreases |packets|
  {
    var shorter, last := packets[..|packets| - 1], packets[|packets| - 1];
    assert packets == shorter + [last];
    RunSnoc(Detector(0, 0), shorter, last);
    if shorter != [] {
      RemembersHighMark(shorter);
    } else {
      assert HighMark(shorter, last.sessionId) == 0;
    }
  }

  /** What the check answers after `earlier`: accepted exactly if new, a wrong session exactly if
      foreign, and the gap counts exactly the numbers skipped since the greatest one of the session. */
  lemma Verdict(earlier: seq<PacketId>, id: PacketId)
    requires Nonzero(earlier) && id.sessionId != 0 && id.sequence != 0
    ensures var report := Final(Detector(0, 0), earlier).Report(id.sessionId, id.sequence);
      && (report.status == Accepted <==> IsNew(earlier, id))
      && (report.status == WrongSession <==> IsForeign(earlier, id))
      && (report.status == DuplicateOrOld <==> !IsNew(earlier, id) && !IsForeign(earlier, id))
      && (IsNew(earlier, id) ==> report.gap == id.sequence - HighMark(earlier, id.sessionId) - 1)
  {
    if earlier != [] {
      RemembersHighMark(earlier);
      var mark := HighMark(earlier, earlier[0].sessionId);
      assert earlier[0].sequence <= mark;
      if id.sessionId == earlier[0].sessionId && id.sequence <= mark {
        var i :| 0 <= i < |earlier| && earlier[i] == PacketId(id.sessionId, mark);
        assert !IsNew(earlier, id);
      }
    }
  }

  lemma {:induction false} ReportAt(d: Detector, packets: seq<PacketId>, i: nat)
    requires i < |packets|
    ensures Reports(d, packets)[i] == Final(d, packets[..i]).Report(packets[i].sessionId, packets[i].sequence)
    decreases i
  {
    if i > 0 {
      assert packets[..i][1..] == packets[1..][..i - 1];
      ReportAt(d.After(packets[0].sessionId, packets[0].sequence), packets[1..], i - 1);
    }
  }

  /** Over any run of packets from a fresh detector: packet i is accepted if and only if it is of the
      first packet's session and exceeds every earlier sequence of it, it is of a wrong session if and
      only if its session is another one, and otherwise it is a duplicate or old. */
  lemma Verdicts(packets: seq<PacketId>, i: nat)
    requires Nonzero(packets) && i < |packets|
    ensures var status := Reports(Detector(0, 0), packets)[i].status;
      && (status == Accepted <==>
            && packets[i].sessionId == packets[0].sessionId
            && forall j :: 0 <= j < i && packets[j].sessionId == packets[0].sessionId ==>
                 packets[j].sequence < packets[i].sequence)
      && (status == WrongSession <==> packets[i].sessionId != packets[0].sessionId)
  {
    var earlier := packets[..i];
    assert Nonzero(earlier);
    ReportAt(Detector(0, 0), packets, i);
    Verdict(earlier, packets[i]);
  }

  /** A rejected packet changes nothing and reports no gap. */
  lemma RejectedIsIgnored(d: Detector, sessionId: u32, sequence: u64)
    requires !d.Status(sessionId, sequence).Accepted?
    ensures d.After(sessionId, sequence) == d
    ensures d.Report(sessionId, sequence) == CheckResult(d.Status(sessionId, sequence), 0, 0, 0)
  {
  }

  /** One check keeps the detector sound and accounts for exactly the sequences it moves past. */
  ghost predicate StepExact(d: Detector, sessionId: u32, sequence: u64) {
    var e := d.After(sessionId, sequence);
    && e.Sound()
    && forall n: u64 ::
         Accounted(d, [PacketId(sessionId, sequence)], n) == (if d.lastSequence < n <= e.lastSequence then 1 else 0)
  }

  /** That is so for every input the decoder lets through, and on a fresh detector for no other. */
  lemma StepExactIff(d: Detector, sessionId: u32, sequence: u64)
    requires d.Sound()
    ensures StepExact(d, sessionId, sequence) <==> d.activeSession != 0 || (sessionId != 0 && sequence != 0)
  {
    var id := PacketId(sessionId, sequence);
    var e, report := d.After(sessionId, sequence), d.Report(sessionId, sequence);
    forall n: u64
      ensures Accounted(d, [id], n) ==
        (if report.status.Accepted? && n == sequence then 1 else 0)
        + (if report.gap > 0 && report.firstMissing <= n <= report.lastMissing then 1 else 0)
    {
      AccountedStep(d, id, [], n);
      assert [id] + [] == [id] && AcceptedSequences(e, []) == [];
      assert multiset(AcceptedSequences(e, []))[n] == 0;
    }
    if d.activeSession == 0 && sequence == 0 {
      assert Accounted(d, [id], 1) == 1;
    }
  }

  /** Sequence 0 on a fresh detector: accepted, with a gap that wrapped to the largest number. */
  lemma ZeroSequenceWraps(sessionId: u32)
    ensures Detector(0, 0).Report(sessionId, 0) == CheckResult(Accepted, U64_MAX, 1, U64_MAX)
    ensures !StepExact(Detector(0, 0), sessionId, 0)
  {
    StepExactIff(Detector(0, 0), sessionId, 0);
  }

  /** Session 0 on a fresh detector: the mark moves but nothing is pinned, so a replay is accepted. */
  lemma ZeroSessionUnpins(sequence: u64)
    requires sequence != 0
    ensures var d := Detector(0, 0).After(0, sequence);
      && d == Detector(0, sequence) && !d.Sound()
      && d.Report(0, sequence).status == Accepted && d.Report(0, sequence).gap == U64_MAX
    ensures !StepExact(Detector(0, 0), 0, sequence)
  {
    StepExactIff(Detector(0, 0), 0, sequence);
  }

  /** How many reports carry a status, and how many report a gap. */
  function StatusCount(reports: seq<CheckResult>, status: PacketStatus): nat {
    if reports == [] then 0 else (if reports[0].status == status then 1 else 0) + StatusCount(reports[1..], status)
  }

  function GapCount(reports: seq<CheckResult>): nat {
    if reports == [] then 0 else (if reports[0].gap > 0 then 1 else 0) + GapCount(reports[1..])
  }

  /** A run continued by one packet. */
  lemma {:induction false} RunSnoc(d: Detector, packets: seq<PacketId>, id: PacketId)
    ensures var f := Final(d, packets);
      && Final(d, packets + [id]) == f.After(id.sessionId, id.sequence)
      && Reports(d, packets + [id]) == Reports(d, packets) + [f.Report(id.sessionId, id.sequence)]
      && AcceptedSequences(d, packets + [id]) ==
           AcceptedSequences(d, packets) + (if f.Status(id.sessionId, id.sequence).Accepted? then [id.sequence] else [])
    decreases |packets|
  {
    var longer := packets + [id];
    if packets == [] {
      assert longer[1..] == [];
    } else {
      assert longer[1..] == packets[1..] + [id];
      RunSnoc(d.After(packets[0].sessionId, packets[0].sequence), packets[1..], id);
    }
  }

  lemma {:induction false} CountsSnoc(reports: seq<CheckResult>, r: CheckResult, status: PacketStatus)
    ensures StatusCount(reports + [r], status) == StatusCount(reports, status) + (if r.status == status then 1 else 0)
    ensures GapCount(reports + [r]) == GapCount(reports) + (if r.gap > 0 then 1 else 0)
    ensures TotalGap(reports + [r]) == TotalGap(reports) + r.gap
    decreases |reports|
  {
    if reports != [] {
      assert (reports + [r])[1..] == reports[1..] + [r];
      CountsSnoc(reports[1..], r, status);
    } else {
      assert (reports + [r])[1..] == [];
    }
  }
}
