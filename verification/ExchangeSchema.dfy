/**
  The exchange file format and its validator (monitor-v2/journal_reader/schema.py).
  Records arrive already decoded; a closed string enumeration is a datatype. Times
  are whole microseconds, so the plausibility bound of 1e11 seconds is 10^17.
  */
module ExchangeSchema {
  import opened Prelude

  datatype Boundary = NoBoundary | ColdStart | SourceGap
  datatype Class = Dns | DialTimeout | Reset | NetUnreachable | TlsHandshake | QuicError | EofCancel | Other
  datatype Proto = Reality | Hysteria2 | OtherProto
  datatype DestClass = Https443 | Http80 | Quic | Dns53 | Dot853 | Smtpish | OtherDest

  type Fingerprint = nat

  const MAX_TS := 100_000_000_000_000_000

  datatype Header = Header(
    seqNo: int, run: nat, epoch: int, boundary: Boundary, lines: int, eligible: int,
    infoDropped: int, nomatchDropped: int, priorityUnusable: int, pfail: int, limited: int)

  datatype Event = Event(
    ts: int, cls: Class, proto: Proto, port: Option<int>, dcls: Option<DestClass>,
    fp: Option<Fingerprint>, n: int)

  /**
    One line of a file. `exact` is false when the key set or a value type is
    wrong, which no field value can make up for.
    */
  datatype Line =
    | BadJson
    | BadShape
    | HeaderLine(header: Header, exact: bool)
    | EventLine(event: Event, exact: bool)

  datatype Verdict =
    | Valid | Empty | IsBadJson | IsBadShape | HeaderPosition | HeaderInvalid | SeqMismatch | EventInvalid | NoHeader

  predicate ValidHeader(h: Header) {
    && 1 <= h.seqNo && 1 <= h.epoch
    && 0 <= h.lines && 0 <= h.eligible && 0 <= h.infoDropped && 0 <= h.nomatchDropped
    && 0 <= h.priorityUnusable && 0 <= h.pfail && 0 <= h.limited
  }

  predicate ValidEvent(e: Event) {
    && 0 <= e.ts <= MAX_TS
    && (e.port.Some? ==> 1 <= e.port.value <= 65535)
    && 1 <= e.n
    && (e.fp.Some? ==> e.cls == Other)
    && (e.dcls.Some? ==> e.port.Some?)
  }

  /** What the format promises of a whole file: one header, first, for this number, and valid events after it. */
  predicate WellFormedFile(lines: seq<Line>, fileSeq: int) {
    && lines != []
    && lines[0].HeaderLine? && lines[0].exact && ValidHeader(lines[0].header)
    && lines[0].header.seqNo == fileSeq
    && forall i :: 1 <= i < |lines| ==> lines[i].EventLine? && lines[i].exact && ValidEvent(lines[i].event)
  }

  /** Line `i` is what the verdict complains of, and everything before it is in order. */
  predicate Faulty(lines: seq<Line>, i: nat, fileSeq: int, verdict: Verdict)
    requires i < |lines|
  {
    && (forall k :: 0 < k < i ==> lines[k].EventLine?)
    && match lines[i]
       case BadJson => verdict == IsBadJson
       case BadShape => verdict == IsBadShape
       case EventLine(e, exact) => verdict == EventInvalid && !(exact && ValidEvent(e))
       case HeaderLine(h, exact) =>
         if i > 0 then verdict == HeaderPosition
         else if exact && ValidHeader(h) then verdict == SeqMismatch && h.seqNo != fileSeq
         else verdict == HeaderInvalid
  }

  /** Nothing out of range is let through: a port is a port number, times and counts are within bounds. */
  lemma AcceptedEvent(lines: seq<Line>, fileSeq: int, i: nat)
    requires WellFormedFile(lines, fileSeq) && 0 < i < |lines|
    ensures var e := lines[i].event;
      && 0 <= e.ts <= 100_000_000_000_000_000 && e.n > 0
      && (e.port.Some? ==> 0 < e.port.value < 0x1_0000)
  {
  }

  /** `parse_exchange_text`: one pass with a `header_seen` flag accepts exactly the well-formed files. */
  method ParseExchange(lines: seq<Line>, fileSeq: int) returns (verdict: Verdict)
    ensures verdict == Valid <==> WellFormedFile(lines, fileSeq)
    ensures verdict == Empty <==> lines == []
    ensures verdict !in {Valid, Empty, NoHeader} ==> exists i :: 0 <= i < |lines| && Faulty(lines, i, fileSeq, verdict)
    ensures verdict == NoHeader ==> forall i :: 0 <= i < |lines| ==> lines[i].EventLine?
  {
    if lines == [] {
      return Empty;
    }
    var headerSeen := false;
    var i := 0;
    while i < |lines|
      invariant 0 <= i <= |lines|
      invariant headerSeen ==> 0 < i && WellFormedFile(lines[..i], fileSeq)
      invariant !headerSeen ==> forall k :: 0 <= k < i ==> lines[k].EventLine?
    {
      assert forall k :: 0 < k < i ==> lines[k].EventLine? by {
        if headerSeen { assert forall k :: 0 < k < i ==> lines[..i][k] == lines[k]; }
      }
      var fault := Valid;
      match lines[i] {
        case BadJson => fault := IsBadJson;
        case BadShape => fault := IsBadShape;
        case HeaderLine(header, exact) =>
          if i != 0 || headerSeen { fault := HeaderPosition; }
          else if !exact || !ValidHeader(header) { fault := HeaderInvalid; }
          else if header.seqNo != fileSeq { fault := SeqMismatch; }
          else { headerSeen := true; }
        case EventLine(event, exact) =>
          if !exact || !ValidEvent(event) { fault := EventInvalid; }
      }
      if fault != Valid {
        assert Faulty(lines, i, fileSeq, fault);
        return fault;
      }
      i := i + 1;
    }
    assert lines[..i] == lines;
    if !headerSeen {
      return NoHeader;
    }
    return Valid;
  }
}
