/** DNS questions, resource records and messages: values, and the heap objects the solvers share. */
module Dns {

  type uint8 = n: int | 0 <= n < 0x100
  type uint16 = n: int | 0 <= n < 0x1_0000
  type uint32 = n: int | 0 <= n < 0x1_0000_0000

  const TYPE_A: uint16 := 1
  const TYPE_CNAME: uint16 := 5
  const CLASS_INET: uint16 := 1
  // The class the local solver puts on an alias for the factory to recognise.
  const CLASS_ALIAS: uint16 := 256

  datatype Question = Question(name: string, qtype: uint16, qclass: uint16)

  datatype RData = Address(ip: seq<uint8>) | Target(target: string) | OtherData(text: string)

  /** The value of a resource record. */
  datatype Record = Record(name: string, rrtype: uint16, class_: uint16, ttl: uint32, data: RData)

  function WithTtl(records: seq<Record>, ttl: uint32): (r: seq<Record>)
    ensures |r| == |records|
    ensures forall i :: 0 <= i < |records| ==> r[i] == records[i].(ttl := ttl)
  {
    seq(|records|, i requires 0 <= i < |records| => records[i].(ttl := ttl))
  }

  /** Equal up to TTLs. */
  predicate SameRecords(a: seq<Record>, b: seq<Record>) {
    |a| == |b| && forall i :: 0 <= i < |a| ==> a[i].(ttl := 0) == b[i].(ttl := 0)
  }

  class RR {
    const name: string
    const rrtype: uint16
    const class_: uint16
    var ttl: uint32
    const data: RData

    constructor (record: Record)
      ensures Value() == record
    {
      name, rrtype, class_, ttl, data := record.name, record.rrtype, record.class_, record.ttl, record.data;
    }

    function Value(): Record
      reads this
    {
      Record(name, rrtype, class_, ttl, data)
    }
  }

  const OPCODE_QUERY := 0

  datatype Header = Header(
    id: uint16, response: bool, opcode: nat, recursionDesired: bool, checkingDisabled: bool, rcode: nat)

  const EMPTY_HEADER := Header(0, false, OPCODE_QUERY, false, false, 0)

  /** The header of a reply to `request`: a plain query's flags are taken over, the response code is success. */
  function ReplyHeader(own: Header, request: Header): Header {
    var asked := if request.opcode == OPCODE_QUERY then request else own;
    Header(request.id, true, request.opcode, asked.recursionDesired, asked.checkingDisabled, 0)
  }

  /** Values of a list of record objects. */
  function Values(answer: seq<RR>): (r: seq<Record>)
    reads set rr | rr in answer
    ensures |r| == |answer|
    ensures forall i :: 0 <= i < |answer| ==> r[i] == answer[i].Value()
  {
    if answer == [] then [] else [answer[0].Value()] + Values(answer[1..])
  }

  class Msg {
    var header: Header
    var question: seq<Question>
    // Fixed when the message is built: no solver reassigns it, though the records themselves can change.
    const answer: seq<RR>

    constructor (answer: seq<RR>)
      ensures this.answer == answer
    {
      header, question, this.answer := EMPTY_HEADER, [], answer;
    }

    function Records(): seq<Record>
      reads set rr | rr in answer
    {
      Values(answer)
    }

    /** Deep copy: neither the message nor a record is shared with the original. */
    method Copy() returns (m: Msg)
      ensures fresh(m) && fresh(set rr | rr in m.answer)
      ensures m.header == header && m.question == question
      ensures m.Records() == Records()
    {
      var copied: seq<RR> := [];
      for i := 0 to |answer|
        invariant |copied| == i
        invariant fresh(set rr | rr in copied)
        invariant forall j :: 0 <= j < i ==> copied[j].Value() == answer[j].Value()
      {
        var rr := new RR(answer[i].Value());
        copied := copied + [rr];
      }
      m := new Msg(copied);
      m.header, m.question := header, question;
    }

    /** Makes the message a reply to the request: header and question only. */
    method SetReply(request: Header, asked: Question)
      modifies this`header, this`question
      ensures header == ReplyHeader(old(header), request) && question == [asked]
      ensures Records() == old(Records())
    {
      header, question := ReplyHeader(header, request), [asked];
    }
  }
}
