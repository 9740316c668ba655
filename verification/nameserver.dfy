/** The DNS side: the index built from the configured records, authority, and answers. */
module Nameserver {
  import opened Options

  datatype RRType = TXT | CNAME | SOA | OtherType(code: nat)

  datatype RR = RR(name: string, rtype: RRType, data: string)

  datatype Rcode = Success | NameError | BadVers

  datatype Question = Question(name: string, qtype: RRType)

  // -------------------------------------------------------------- strings

  function LowerChar(c: char): char {
    if 'A' <= c <= 'Z' then ((c as int) + 32) as char else c
  }

  function ToLower(s: string): (r: string)
    ensures |r| == |s| && forall i :: 0 <= i < |s| ==> r[i] == LowerChar(s[i])
  {
    seq(|s|, i requires 0 <= i < |s| => LowerChar(s[i]))
  }

  /** The backslashes right before position d. */
  function Backslashes(name: string, d: nat): nat
    requires d <= |name|
  {
    if d > 0 && name[d - 1] == '\\' then Backslashes(name, d - 1) + 1 else 0
  }

  /** A label starts after every dot that is not escaped, except a final one. */
  predicate IsLabelStart(name: string, i: nat) {
    0 < i < |name| && name[i - 1] == '.' && Backslashes(name, i - 1) % 2 == 0
  }

  /** dns.NextLabel: the first label start after the offset, or the end of the name. */
  function NextLabel(name: string, off: nat): (next: Option<nat>)
    ensures next.Some? ==> off < next.value && IsLabelStart(name, next.value)
    ensures next.Some? ==> forall i :: off < i < next.value ==> !IsLabelStart(name, i)
    ensures next.None? ==> forall i: nat :: off < i ==> !IsLabelStart(name, i)
    decreases |name| - off
  {
    if off + 1 >= |name| then None
    else if IsLabelStart(name, off + 1) then Some(off + 1)
    else NextLabel(name, off + 1)
  }

  function IndexOfDot(s: string): (i: int)
    ensures -1 <= i < |s|
    ensures i >= 0 ==> s[i] == '.' && forall k :: 0 <= k < i ==> s[k] != '.'
    ensures i < 0 ==> forall k :: 0 <= k < |s| ==> s[k] != '.'
  {
    if s == "" then -1
    else if s[0] == '.' then 0
    else
      var rest := IndexOfDot(s[1..]);
      assert s == [s[0]] + s[1..];
      if rest < 0 then -1 else rest + 1
  }

  /** The first label of the question, in lower case. */
  function SanitizeDomainQuestion(d: string): string {
    var dom := ToLower(d);
    var firstDot := IndexOfDot(d);
    if firstDot > 0 then dom[..firstDot] else dom
  }

  // ---------------------------------------------------------- plain records

  /** What the record parser makes of a line: a record, an error, or, for a blank line or a
      comment, neither. */
  datatype Line = Record(rr: RR) | Malformed | Blank

  /** The records that parse, in configuration order. */
  function Parsed(lines: seq<string>, parse: string -> Line): seq<RR> {
    if lines == [] then []
    else
      var line := parse(ToLower(lines[|lines| - 1]));
      Parsed(lines[..|lines| - 1], parse) + (if line.Record? then [line.rr] else [])
  }

  predicate NoBlank(lines: seq<string>, parse: string -> Line) {
    forall i :: 0 <= i < |lines| ==> !parse(ToLower(lines[i])).Blank?
  }

  function OfName(list: seq<RR>, name: string): seq<RR> {
    if list == [] then []
    else OfName(list[..|list| - 1], name) + (if list[|list| - 1].name == name then [list[|list| - 1]] else [])
  }

  function OfType(list: seq<RR>, rtype: RRType): seq<RR> {
    if list == [] then []
    else OfType(list[..|list| - 1], rtype) + (if list[|list| - 1].rtype == rtype then [list[|list| - 1]] else [])
  }

  /** What a plain search of the configured list answers: the records of that name and type,
      or the name's aliases when there are none. */
  function PlainAnswer(list: seq<RR>, name: string, qtype: RRType): seq<RR> {
    var found := OfType(OfName(list, name), qtype);
    if found == [] then OfType(OfName(list, name), CNAME) else found
  }

  /** The index holds every name of the list with its records in list order. */
  ghost predicate Indexes(domains: map<string, seq<RR>>, list: seq<RR>) {
    forall name :: (name in domains <==> OfName(list, name) != [])
                   && (name in domains ==> domains[name] == OfName(list, name))
  }

  lemma OfNameSnoc(list: seq<RR>, rr: RR, name: string)
    ensures OfName(list + [rr], name) == OfName(list, name) + (if rr.name == name then [rr] else [])
  {
    assert (list + [rr])[..|list|] == list;
  }

  // --------------------------------------------------------------- messages

  datatype Message = Message(
    answer: seq<RR>,
    authority: seq<Option<RR>>,
    rcode: Rcode,
    authoritative: bool)

  datatype Reply = Reply(records: seq<RR>, rcode: Rcode, authoritative: bool)

  const CHALLENGE_PREFIX := "_acme-challenge."

  class Server {
    const ownDomain: string
    var domains: map<string, seq<RR>>
    var soa: Option<RR>
    var personalAuthKey: string
    ghost var list: seq<RR>

    constructor (domain: string)
      ensures Valid() && list == [] && soa == None && personalAuthKey == ""
      ensures ownDomain == ToLower(if domain != "" && domain[|domain| - 1] == '.' then domain else domain + ".")
    {
      ownDomain := ToLower(if domain != "" && domain[|domain| - 1] == '.' then domain else domain + ".");
      domains, soa, personalAuthKey, list := map[], None, "", [];
    }

    ghost predicate Valid()
      reads this
    {
      Indexes(domains, list)
    }

    method AppendRR(rr: RR)
      requires Valid()
      modifies this`domains, this`list
      ensures Valid() && list == old(list) + [rr]
    {
      forall name ensures OfName(list + [rr], name) == OfName(list, name) + (if rr.name == name then [rr] else []) {
        OfNameSnoc(list, rr, name);
      }
      if rr.name !in domains {
        domains := domains[rr.name := [rr]];
      } else {
        domains := domains[rr.name := domains[rr.name] + [rr]];
      }
      list := list + [rr];
    }

    /** Malformed lines are skipped; the SOA goes in last. A line without a record gives no
        error and no record to append, which ends the program: then the result is false. */
    method ParseRecords(lines: seq<string>, soaLine: string, parse: string -> Line) returns (ok: bool)
      requires Valid() && list == []
      modifies this`domains, this`list, this`soa
      ensures Valid()
      ensures ok <==> NoBlank(lines, parse) && !parse(soaLine).Blank?
      ensures ok ==> list == Parsed(lines, parse) + (if parse(soaLine).Record? then [parse(soaLine).rr] else [])
      ensures ok ==> soa == if parse(soaLine).Record? then Some(parse(soaLine).rr) else old(soa)
    {
      for i := 0 to |lines|
        invariant Valid() && list == Parsed(lines[..i], parse) && soa == old(soa)
        invariant NoBlank(lines[..i], parse)
      {
        assert lines[..i + 1][..i] == lines[..i];
        var line := parse(ToLower(lines[i]));
        if line.Malformed? { continue; }
        if line.Blank? { return false; }
        AppendRR(line.rr);
      }
      assert lines[..|lines|] == lines;
      var line := parse(soaLine);
      if line.Blank? { return false; }
      if line.Record? {
        AppendRR(line.rr);
        soa := Some(line.rr);
      }
      return true;
    }

    method SetOwnAuthKey(key: string)
      modifies this`personalAuthKey
      ensures personalAuthKey == key
    {
      personalAuthKey := key;
    }

    predicate AnsweringForDomain(name: string)
      reads this
    {
      ownDomain == name || name in domains
    }

    predicate IsOwnChallenge(name: string) {
      |name| >= 16 && name[..16] == CHALLENGE_PREFIX && name[16..] == ownDomain
    }

    /** The name or one of its proper label suffixes is served here. */
    ghost predicate Covers(name: string)
      reads this
    {
      AnsweringForDomain(name) || exists i: nat :: IsLabelStart(name, i) && AnsweringForDomain(name[i..])
    }

    method IsAuthoritative(name: string) returns (yes: bool)
      ensures yes <==> Covers(name)
    {
      if AnsweringForDomain(name) { return true; }
      var off := 0;
      while true
        invariant 0 <= off <= |name|
        invariant !AnsweringForDomain(name)
        invariant forall i: nat :: i <= off && IsLabelStart(name, i) ==> !AnsweringForDomain(name[i..])
        decreases |name| - off
      {
        var next := NextLabel(name, off);
        if next.None? { return false; }
        off := next.value;
        if AnsweringForDomain(name[off..]) { return true; }
      }
    }

    /** The index answers like the configured list. */
    method GetRecord(name: string, qtype: RRType) returns (rr: seq<RR>)
      requires Valid()
      ensures rr == PlainAnswer(list, name, qtype)
    {
      if name !in domains { return []; }
      var records := domains[name];
      var cnames: seq<RR> := [];
      rr := [];
      for i := 0 to |records|
        invariant rr == OfType(records[..i], qtype) && cnames == OfType(records[..i], CNAME)
      {
        assert records[..i + 1][..i] == records[..i];
        if records[i].rtype == qtype { rr := rr + [records[i]]; }
        if records[i].rtype == CNAME { cnames := cnames + [records[i]]; }
      }
      assert records[..|records|] == records;
      if rr == [] { return cnames; }
    }

    /** Values of the store become TXT records; empty slots do not. */
    method AnswerTXT(q: Question, values: seq<string>) returns (ra: seq<RR>)
      ensures ra == DynamicTXT(q.name, values)
    {
      ra := [];
      for i := 0 to |values|
        invariant ra == DynamicTXT(q.name, values[..i])
      {
        assert values[..i + 1][..i] == values[..i];
        if |values[i]| > 0 { ra := ra + [RR(q.name, TXT, values[i])]; }
      }
      assert values[..|values|] == values;
    }

    /** What one question is answered with; `values` is what the store holds for its first
        label, none when it could not be read. */
    ghost function ReplyTo(q: Question, values: Option<seq<string>>): Reply
      reads this
    {
      var name := ToLower(q.name);
      var fixed := PlainAnswer(list, name, q.qtype);
      var dynamic :=
        if !q.qtype.TXT? then []
        else if IsOwnChallenge(name) then [RR(q.name, TXT, personalAuthKey)]
        else if values.Some? then DynamicTXT(q.name, values.value) else [];
      var rcode :=
        if fixed + dynamic != [] || IsOwnChallenge(name) || AnsweringForDomain(name) then Success else NameError;
      Reply(fixed + dynamic, rcode, Covers(name))
    }

    method Answer(q: Question, values: Option<seq<string>>) returns (reply: Reply)
      requires Valid()
      ensures reply == ReplyTo(q, values)
    {
      var rcode := Success;
      var loweredName := ToLower(q.name);
      var authoritative := IsAuthoritative(loweredName);
      if !IsOwnChallenge(loweredName) && !AnsweringForDomain(loweredName) {
        rcode := NameError;
      }
      var r := GetRecord(loweredName, q.qtype);
      if q.qtype == TXT {
        if IsOwnChallenge(loweredName) {
          r := r + [RR(q.name, TXT, personalAuthKey)];
        } else if values.Some? {
          var txtRRs := AnswerTXT(q, values.value);
          r := r + txtRRs;
        }
      }
      if |r| > 0 { rcode := Success; }
      return Reply(r, rcode, authoritative);
    }

    /** The replies to the first n questions. */
    ghost function Replies(questions: seq<Question>, values: seq<Option<seq<string>>>, n: nat): (replies: seq<Reply>)
      requires n <= |questions| == |values|
      reads this
      ensures |replies| == n
      ensures forall i :: 0 <= i < n ==> replies[i] == ReplyTo(questions[i], values[i])
    {
      if n == 0 then [] else Replies(questions, values, n - 1) + [ReplyTo(questions[n - 1], values[n - 1])]
    }

    method ReadQuery(questions: seq<Question>, values: seq<Option<seq<string>>>) returns (m: Message)
      requires Valid() && |questions| == |values|
      ensures m == Combine(Replies(questions, values, |questions|), soa)
    {
      var authoritative := false;
      m := Message([], [], Success, false);
      for i := 0 to |questions|
        invariant m.answer == Answers(Replies(questions, values, i)) && m.authority == []
        invariant m.rcode == LastRcode(Replies(questions, values, i)) && !m.authoritative
        invariant authoritative == AnyAuthoritative(Replies(questions, values, i))
      {
        var reply := Answer(questions[i], values[i]);
        RepliesSnoc(Replies(questions, values, i), reply);
        if reply.authoritative { authoritative := true; }
        m := m.(rcode := reply.rcode, answer := m.answer + reply.records);
      }
      m := m.(authoritative := authoritative);
      if authoritative && m.rcode == NameError {
        m := m.(authority := [soa]);
      }
    }

    /** `edns` is the EDNS version, when the request carries one; `opt` is the size announced
        in the OPT record of the reply, when it carries one. */
    method HandleRequest(isQuery: bool, edns: Option<nat>, questions: seq<Question>, values: seq<Option<seq<string>>>)
      returns (m: Message, opt: Option<nat>)
      requires Valid() && |questions| == |values|
      ensures opt == if edns.Some? then Some(512) else None
      ensures edns.Some? && edns.value != 0 ==> m == Message([], [], BadVers, false)
      ensures (edns.None? || edns.value == 0) ==>
                m == if isQuery then Combine(Replies(questions, values, |questions|), soa)
                     else Message([], [], Success, false)
    {
      m, opt := Message([], [], Success, false), None;
      if edns.Some? {
        opt := Some(512);
        if edns.value != 0 { return m.(rcode := BadVers), opt; }
      }
      if isQuery { m := ReadQuery(questions, values); }
    }
  }

  function DynamicTXT(name: string, values: seq<string>): seq<RR> {
    if values == [] then []
    else
      var last := values[|values| - 1];
      DynamicTXT(name, values[..|values| - 1]) + (if |last| > 0 then [RR(name, TXT, last)] else [])
  }

  function Answers(replies: seq<Reply>): seq<RR> {
    if replies == [] then []
    else Answers(replies[..|replies| - 1]) + replies[|replies| - 1].records
  }

  function LastRcode(replies: seq<Reply>): Rcode {
    if replies == [] then Success else replies[|replies| - 1].rcode
  }

  predicate AnyAuthoritative(replies: seq<Reply>) {
    exists i :: 0 <= i < |replies| && replies[i].authoritative
  }

  lemma RepliesSnoc(replies: seq<Reply>, reply: Reply)
    ensures Answers(replies + [reply]) == Answers(replies) + reply.records
    ensures LastRcode(replies + [reply]) == reply.rcode
    ensures AnyAuthoritative(replies + [reply]) <==> AnyAuthoritative(replies) || reply.authoritative
  {
    var all := replies + [reply];
    assert all[..|replies|] == replies;
    assert all[|replies|] == reply;
    if i :| 0 <= i < |replies| && replies[i].authoritative { assert all[i].authoritative; }
  }

  /** One message from the replies to its questions: all records, the last rcode. */
  function Combine(replies: seq<Reply>, soa: Option<RR>): Message {
    var auth, rcode := AnyAuthoritative(replies), LastRcode(replies);
    Message(Answers(replies), if auth && rcode.NameError? then [soa] else [], rcode, auth)
  }

  // ------------------------------------------------------------------- laws

  lemma CombineOne(reply: Reply, soa: Option<RR>)
    ensures Combine([reply], soa)
         == Message(reply.records, if reply.authoritative && reply.rcode.NameError? then [soa] else [],
                    reply.rcode, reply.authoritative)
  {
    RepliesSnoc([], reply);
    assert [] + [reply] == [reply];
    assert Answers([]) == [] && !AnyAuthoritative([]);
  }

  /** A one-question reply denies the name only with an empty answer, exactly when nothing
      is known under it; the SOA comes along exactly for an authoritative denial. */
  lemma OneQuestion(s: Server, q: Question, values: Option<seq<string>>)
    ensures var m := Combine(s.Replies([q], [values], 1), s.soa);
      var name := ToLower(q.name);
      && (m.rcode == NameError <==> m.answer == [] && !s.IsOwnChallenge(name) && !s.AnsweringForDomain(name))
      && (m.authority == [s.soa] <==> m.authoritative && m.rcode == NameError)
      && (m.authority == [] <==> !(m.authoritative && m.rcode == NameError))
      && (m.authoritative <==> s.Covers(name))
      && m.answer == s.ReplyTo(q, values).records
  {
    var replies := s.Replies([q], [values], 1);
    assert replies == [s.ReplyTo(q, values)];
    CombineOne(s.ReplyTo(q, values), s.soa);
  }

  lemma DenialOf(replies: seq<Reply>, soa: Option<RR>)
    requires forall i :: 0 <= i < |replies| ==> (replies[i].rcode == NameError ==> replies[i].records == [])
    ensures Combine(replies, soa).rcode == NameError && Combine(replies, soa).answer != []
       <==> replies != [] && replies[|replies| - 1].rcode == NameError
            && exists i :: 0 <= i < |replies| - 1 && replies[i].records != []
  {
    AnswersEmpty(replies);
  }

  /** There is something to answer a question with: configured records, the own challenge key
      or a value of the store. */
  ghost predicate Answerable(s: Server, q: Question, values: Option<seq<string>>)
    reads s
  {
    var name := ToLower(q.name);
    || PlainAnswer(s.list, name, q.qtype) != []
    || (q.qtype.TXT? && s.IsOwnChallenge(name))
    || (q.qtype.TXT? && values.Some? && exists i :: 0 <= i < |values.value| && values.value[i] != "")
  }

  /** Nothing is known under the name, so the question alone is answered by a denial. */
  ghost predicate Unknown(s: Server, q: Question, values: Option<seq<string>>)
    reads s
  {
    var name := ToLower(q.name);
    !Answerable(s, q, values) && !s.IsOwnChallenge(name) && !s.AnsweringForDomain(name)
  }

  lemma {:induction false} DynamicEmpty(name: string, values: seq<string>)
    ensures DynamicTXT(name, values) == [] <==> forall i :: 0 <= i < |values| ==> values[i] == ""
  {
    if values != [] {
      var n := |values| - 1;
      DynamicEmpty(name, values[..n]);
      assert values == values[..n] + [values[n]];
    }
  }

  /** The reply to one question, judged by the question. */
  ghost predicate Decided(s: Server, q: Question, values: Option<seq<string>>, reply: Reply)
    reads s
  {
    && (reply.records != [] <==> Answerable(s, q, values))
    && (reply.rcode == NameError <==> Unknown(s, q, values))
  }

  lemma ReplyDecided(s: Server, q: Question, values: Option<seq<string>>)
    ensures Decided(s, q, values, s.ReplyTo(q, values))
  {
    if values.Some? { DynamicEmpty(q.name, values.value); }
  }

  lemma RepliesDecided(s: Server, questions: seq<Question>, values: seq<Option<seq<string>>>)
    requires |questions| == |values|
    ensures var replies := s.Replies(questions, values, |questions|);
      |replies| == |questions| && forall i :: 0 <= i < |replies| ==> Decided(s, questions[i], values[i], replies[i])
  {
    var replies := s.Replies(questions, values, |questions|);
    forall i | 0 <= i < |replies| ensures Decided(s, questions[i], values[i], replies[i]) {
      ReplyDecided(s, questions[i], values[i]);
    }
  }

  lemma DenialOver(s: Server, questions: seq<Question>, values: seq<Option<seq<string>>>, replies: seq<Reply>,
                   soa: Option<RR>)
    requires |questions| == |values| == |replies|
    requires forall i :: 0 <= i < |replies| ==> Decided(s, questions[i], values[i], replies[i])
    ensures var n := |questions|;
      Combine(replies, soa).rcode == NameError && Combine(replies, soa).answer != []
      <==> n > 0 && Unknown(s, questions[n - 1], values[n - 1])
           && exists i :: 0 <= i < n - 1 && Answerable(s, questions[i], values[i])
  {
    DenialOf(replies, soa);
    if i :| 0 <= i < |replies| - 1 && Answerable(s, questions[i], values[i]) {
      assert Decided(s, questions[i], values[i], replies[i]);
    }
  }

  /** A law of the loop over the questions of a message, of which only the last one's code is
      reported: the reply denies the name and yet carries records exactly when nothing is known
      under the last name and an earlier question can be answered. */
  lemma DenialWithRecordsExactly(s: Server, questions: seq<Question>, values: seq<Option<seq<string>>>)
    requires |questions| == |values|
    ensures var n := |questions|;
      var m := Combine(s.Replies(questions, values, n), s.soa);
      m.rcode == NameError && m.answer != []
      <==> n > 0 && Unknown(s, questions[n - 1], values[n - 1])
           && exists i :: 0 <= i < n - 1 && Answerable(s, questions[i], values[i])
  {
    var replies := s.Replies(questions, values, |questions|);
    RepliesDecided(s, questions, values);
    DenialOver(s, questions, values, replies, s.soa);
  }

  lemma LowerConcat(a: string, b: string)
    ensures ToLower(a + b) == ToLower(a) + ToLower(b)
  {
  }

  /** So the loop builds such a reply from the own challenge and any name it does not know. */
  lemma DenialWithRecordsHappens(s: Server, other: string)
    requires s.Valid() && ToLower(s.ownDomain) == s.ownDomain
    requires !s.IsOwnChallenge(ToLower(other)) && !s.AnsweringForDomain(ToLower(other))
    ensures var questions := [Question(CHALLENGE_PREFIX + s.ownDomain, TXT), Question(other, TXT)];
      var m := Combine(s.Replies(questions, [None, None], 2), s.soa);
      m.rcode == NameError && m.answer != []
  {
    var questions := [Question(CHALLENGE_PREFIX + s.ownDomain, TXT), Question(other, TXT)];
    LowerConcat(CHALLENGE_PREFIX, s.ownDomain);
    assert ToLower(CHALLENGE_PREFIX) == CHALLENGE_PREFIX;
    assert Answerable(s, questions[0], None);
    assert OfName(s.list, ToLower(other)) == [];
    assert PlainAnswer(s.list, ToLower(other), TXT) == [];
    assert Unknown(s, questions[1], None);
    DenialWithRecordsExactly(s, questions, [None, None]);
  }

  lemma {:induction false} AnswersEmpty(replies: seq<Reply>)
    ensures Answers(replies) == [] <==> forall i :: 0 <= i < |replies| ==> replies[i].records == []
  {
    if replies != [] {
      AnswersEmpty(replies[..|replies| - 1]);
      assert replies == replies[..|replies| - 1] + [replies[|replies| - 1]];
    }
  }

  lemma {:induction false} BackslashesPrepended(prefix: string, name: string, d: nat)
    requires d <= |name| && prefix != "" && prefix[|prefix| - 1] == '.'
    ensures Backslashes(prefix + name, |prefix| + d) == Backslashes(name, d)
  {
    if d > 0 && name[d - 1] == '\\' {
      BackslashesPrepended(prefix, name, d - 1);
    }
  }

  /** Authority is inherited by every name with labels prepended. */
  lemma AuthorityInherited(s: Server, prefix: string, name: string)
    requires s.Covers(name) && IsLabelStart(prefix + name, |prefix|)
    ensures s.Covers(prefix + name)
  {
    var whole := prefix + name;
    assert prefix[|prefix| - 1] == '.';
    if s.AnsweringForDomain(name) {
      assert whole[|prefix|..] == name;
    } else {
      var i: nat :| IsLabelStart(name, i) && s.AnsweringForDomain(name[i..]);
      BackslashesPrepended(prefix, name, i - 1);
      assert IsLabelStart(whole, |prefix| + i);
      assert whole[|prefix| + i..] == name[i..];
    }
  }

  /** Static records of a name come in configuration order with the SOA last. */
  lemma SoaComesLast(lines: seq<string>, parse: string -> Line, soaRecord: RR)
    ensures OfName(Parsed(lines, parse) + [soaRecord], soaRecord.name)
         == OfName(Parsed(lines, parse), soaRecord.name) + [soaRecord]
  {
    OfNameSnoc(Parsed(lines, parse), soaRecord, soaRecord.name);
  }

  // ------------------------------------------------------- in plain words

  /** The records of a configuration are those of its lines, one after the other, each line read
      in lower case. */
  lemma {:induction false} ParsedLineByLine(a: seq<string>, b: seq<string>, parse: string -> Line)
    ensures Parsed(a + b, parse) == Parsed(a, parse) + Parsed(b, parse)
    ensures |b| == 1 ==>
              Parsed(b, parse) == match parse(ToLower(b[0]))
                                  case Record(rr) => [rr]
                                  case _ => []
    decreases |b|
  {
    if b == [] {
      assert a + b == a;
    } else {
      var n := |b| - 1;
      ParsedLineByLine(a, b[..n], parse);
      assert (a + b)[..|a| + n] == a + b[..n];
    }
  }

  lemma {:induction false} OfNameHolds(list: seq<RR>, name: string, rr: RR)
    ensures rr in OfName(list, name) <==> rr in list && rr.name == name
  {
    if list != [] {
      var n := |list| - 1;
      OfNameHolds(list[..n], name, rr);
      assert list == list[..n] + [list[n]];
    }
  }

  lemma {:induction false} OfTypeHolds(list: seq<RR>, rtype: RRType, rr: RR)
    ensures rr in OfType(list, rtype) <==> rr in list && rr.rtype == rtype
  {
    if list != [] {
      var n := |list| - 1;
      OfTypeHolds(list[..n], rtype, rr);
      assert list == list[..n] + [list[n]];
    }
  }

  lemma OfTypeSnoc(list: seq<RR>, rr: RR, rtype: RRType)
    ensures OfType(list + [rr], rtype) == OfType(list, rtype) + (if rr.rtype == rtype then [rr] else [])
  {
    assert (list + [rr])[..|list|] == list;
  }

  /** A configured record is answered exactly if it has the name asked for and the type asked for
      or, when no record has both, is an alias of the name. */
  lemma AnsweredExactly(list: seq<RR>, name: string, qtype: RRType, rr: RR)
    ensures rr in PlainAnswer(list, name, qtype) <==>
              rr in list && rr.name == name
              && if exists other :: other in list && other.name == name && other.rtype == qtype
                 then rr.rtype == qtype else rr.rtype == CNAME
  {
    forall other ensures other in OfType(OfName(list, name), qtype)
                         <==> other in list && other.name == name && other.rtype == qtype {
      OfNameHolds(list, name, other);
      OfTypeHolds(OfName(list, name), qtype, other);
    }
    OfNameHolds(list, name, rr);
    OfTypeHolds(OfName(list, name), CNAME, rr);
    var found := OfType(OfName(list, name), qtype);
    assert found != [] ==> found[0] in found;
  }

  /** Answers keep the order of the configuration: a record configured later comes later. */
  lemma AnsweredInOrder(list: seq<RR>, rr: RR)
    ensures var before := PlainAnswer(list, rr.name, rr.rtype);
      PlainAnswer(list + [rr], rr.name, rr.rtype)
      == (if exists other :: other in list && other.name == rr.name && other.rtype == rr.rtype then before else [])
         + [rr]
  {
    AnsweredSame(list, rr);
    OfNameSnoc(list, rr, rr.name);
    OfTypeSnoc(OfName(list, rr.name), rr, rr.rtype);
  }

  lemma AnsweredSame(list: seq<RR>, rr: RR)
    ensures OfType(OfName(list, rr.name), rr.rtype) != []
       <==> exists other :: other in list && other.name == rr.name && other.rtype == rr.rtype
  {
    forall other ensures other in OfType(OfName(list, rr.name), rr.rtype)
                         <==> other in list && other.name == rr.name && other.rtype == rr.rtype {
      OfNameHolds(list, rr.name, other);
      OfTypeHolds(OfName(list, rr.name), rr.rtype, other);
    }
    var found := OfType(OfName(list, rr.name), rr.rtype);
    assert found != [] ==> found[0] in found;
  }

  /** In a name without backslashes a label starts after every dot but a final one. */
  lemma {:induction false} PlainBackslashes(name: string, d: nat)
    requires d <= |name| && '\\' !in name
    ensures Backslashes(name, d) == 0
  {
    if d > 0 { assert name[d - 1] in name; }
  }

  /** Authority over a name without backslashes: it, or what follows one of its dots, is the own
      domain or configured. */
  lemma CoversExactly(s: Server, name: string)
    requires '\\' !in name
    ensures s.Covers(name) <==>
              || name == s.ownDomain || name in s.domains
              || exists i: nat ::
                   0 < i < |name| && name[i - 1] == '.' && (name[i..] == s.ownDomain || name[i..] in s.domains)
  {
    forall i: nat | 0 < i < |name| ensures IsLabelStart(name, i) <==> name[i - 1] == '.' {
      PlainBackslashes(name, i - 1);
    }
  }

  /** The server proves its own domain by answering this one name itself, whatever is stored. */
  lemma OwnChallengeAnswered(s: Server, q: Question, values: Option<seq<string>>)
    requires q.qtype.TXT? && ToLower(q.name) == "_acme-challenge." + s.ownDomain
    ensures var reply := s.ReplyTo(q, values);
      && RR(q.name, TXT, s.personalAuthKey) in reply.records && reply.rcode == Success
      && forall rr :: rr in reply.records ==> rr == RR(q.name, TXT, s.personalAuthKey) || rr.name == ToLower(q.name)
  {
    var name := ToLower(q.name);
    assert |"_acme-challenge."| == 16 && name[..16] == "_acme-challenge." && name[16..] == s.ownDomain;
    var fixed := PlainAnswer(s.list, name, q.qtype);
    forall rr | rr in fixed ensures rr.name == name {
      AnsweredExactly(s.list, name, q.qtype, rr);
    }
    assert s.ReplyTo(q, values).records == fixed + [RR(q.name, TXT, s.personalAuthKey)];
  }

  /** Lower case of the 26 capitals, and nothing else. */
  lemma LowersCapitals(c: char)
    ensures LowerChar(c) == if 'A' <= c <= 'Z' then 'a' + (c - 'A') else c
  {
  }

  /** Without a dot inside, or with one in front, the whole name is taken for the label. */
  lemma UndottedIsLabel(d: string)
    requires '.' !in d || (d != "" && d[0] == '.')
    ensures SanitizeDomainQuestion(d) == ToLower(d)
  {
    var i := IndexOfDot(d);
  }
}
