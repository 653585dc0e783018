/** One question to the assistant, from its charge to the last frame the reader is sent. */
module AnswerStream {
  import opened ProviderChain
  import opened AiQuota

  /** Where an answer says it came from. */
  datatype Source = NoSource | Source(text: string)

  /** The prompt again without the slide's image, when it can be rebuilt. */
  datatype Rebuild = NoRebuild | Broken | Rebuilt(system: string, source: Source)

  datatype Bundle = Bundle(system: string, image: bool, rebuild: Rebuild, source: Source)

  datatype Frame = Ref(text: string) | Delta(text: string) | Error(kind: string, again: bool) | Done

  /** Failures that may go away if the reader asks once more. */
  const WORTH_RETRYING: set<string> := {"rate_limit", "timeout", "unavailable"}

  /** The kind the reader is told of; what the chain does not know is told as unavailable. */
  function KindOf(e: Ending): string
    requires !e.Finished?
  {
    if e.Refused? then e.kind else "unavailable"
  }

  function WithoutImage(b: Bundle): Bundle {
    if b.rebuild.Rebuilt? then b.(system := b.rebuild.system, source := b.rebuild.source) else b
  }

  predicate UsesVision(b: Bundle, providers: seq<Provider>)
    requires providers != []
  {
    b.image && providers[0].seesImages
  }

  /** Every call that may be made for one question, in the order they would be. */
  function Attempts(b: Bundle, providers: seq<Provider>): (r: seq<Attempt>)
    requires providers != []
    ensures r != []
  {
    if UsesVision(b, providers)
    then [Attempt(providers[0].answer(Vision(b.system)), true)] + TextAttempts(providers, WithoutImage(b).system)
    else TextAttempts(providers, b.system)
  }

  /** Whether the image had to be given up. */
  predicate ImageLost(b: Bundle, providers: seq<Provider>)
    requires providers != []
  {
    UsesVision(b, providers) && Passed(Attempts(b, providers)[0])
  }

  function SourceAfter(b: Bundle, providers: seq<Provider>): Source
    requires providers != []
  {
    if ImageLost(b, providers) then WithoutImage(b).source else b.source
  }

  lemma VisionPassed(first: Attempt, rest: seq<Attempt>, o: Reply)
    requires Passed(first) && rest != [] && IsOutcome(rest, o)
    ensures IsOutcome([first] + rest, o)
  {
    var all := [first] + rest;
    if i :| 0 <= i < |rest| && Decides(rest, i) && o == rest[i].reply {
      assert forall j :: 0 < j <= i + 1 ==> all[j] == rest[j - 1];
      assert Decides(all, i + 1);
    } else {
      assert forall j :: 0 < j < |all| ==> all[j] == rest[j - 1];
    }
  }

  /** The pieces of the answer: with the image when the first provider sees, else, or when it
      says nothing, without. */
  method StreamAnswer(chain: Chain, b: Bundle) returns (reply: Reply, next: Bundle)
    requires chain.providers != []
    modifies chain`lastUsed
    ensures IsOutcome(Attempts(b, chain.providers), reply)
    ensures next == b.(system := next.system, source := SourceAfter(b, chain.providers))
  {
    next := b;
    if b.image && chain.providers[0].seesImages {
      ghost var first := Attempt(chain.providers[0].answer(Vision(b.system)), true);
      reply := chain.ChatStreamVision(b.system);
      if reply.chunks != [] || !reply.ending.Refused? {
        assert Decides(Attempts(b, chain.providers), 0);
        return;
      }
      next := WithoutImage(b);
      reply := chain.ChatStream(next.system);
      VisionPassed(first, TextAttempts(chain.providers, next.system), reply);
      return;
    }
    reply := chain.ChatStream(b.system);
  }

  // ----- the frames -----

  function Announced(s: Source): seq<Frame> {
    if s.Source? && s.text != "" then [Ref(s.text)] else []
  }

  function Deltas(chunks: seq<string>): (r: seq<Frame>)
    ensures |r| == |chunks|
  {
    seq(|chunks|, i requires 0 <= i < |chunks| => Delta(chunks[i]))
  }

  function Failure(e: Ending): seq<Frame> {
    if e.Finished? then [] else [Error(KindOf(e), KindOf(e) in WORTH_RETRYING)]
  }

  function Corrected(before: Source, after: Source): seq<Frame> {
    if after == before then [] else [Ref(if after.Source? then after.text else "")]
  }

  function Opening(before: Source, reply: Reply): seq<Frame> {
    Announced(before) + Deltas(reply.chunks) + Failure(reply.ending)
  }

  /** All a reader who stays is sent. */
  function Transcript(before: Source, reply: Reply, after: Source): seq<Frame> {
    Opening(before, reply) + (Corrected(before, after) + [Done])
  }

  /** The pieces of the answer among the first `n` frames. */
  function SaidIn(frames: seq<Frame>, n: nat): seq<string>
    requires n <= |frames|
  {
    if n == 0 then []
    else if frames[n - 1].Delta? then SaidIn(frames, n - 1) + [frames[n - 1].text]
    else SaidIn(frames, n - 1)
  }

  function Said(frames: seq<Frame>): seq<string> {
    SaidIn(frames, |frames|)
  }

  /** The reference a reader is left with by the first `n` frames: the last one sent. */
  function LastRef(frames: seq<Frame>, n: nat): string
    requires n <= |frames|
  {
    if n == 0 then "" else if frames[n - 1].Ref? then frames[n - 1].text else LastRef(frames, n - 1)
  }

  lemma {:induction false} SameFrames(one: seq<Frame>, other: seq<Frame>, n: nat)
    requires n <= |one| && n <= |other| && forall i :: 0 <= i < n ==> one[i] == other[i]
    ensures SaidIn(one, n) == SaidIn(other, n)
  {
    if n > 0 {
      SameFrames(one, other, n - 1);
    }
  }

  function Take(frames: seq<Frame>, n: nat): seq<Frame> {
    if n <= |frames| then frames[..n] else frames
  }

  /** What a stream that was started leaves behind: the frames sent, and what is stored. */
  datatype Exchange = Exchange(sent: seq<Frame>, answer: seq<string>, source: Source)

  /** A reader who leaves after `patience` frames has been sent that much of the transcript. */
  predicate IsExchange(b: Bundle, providers: seq<Provider>, reply: Reply, patience: nat, x: Exchange)
    requires providers != []
  {
    var after := SourceAfter(b, providers);
    && x.sent == Take(Transcript(b.source, reply, after), patience)
    && x.answer == Said(x.sent)
    && x.source == if patience <= |Announced(b.source)| then b.source else after
  }

  /** One more frame of a transcript sent. */
  lemma SendOne(full: seq<Frame>, sent: seq<Frame>, f: Frame)
    requires |sent| < |full| && sent == full[..|sent|] && full[|sent|] == f
    ensures sent + [f] == full[..|sent| + 1]
    ensures Said(sent + [f]) == if f.Delta? then Said(sent) + [f.text] else Said(sent)
  {
    SameFrames(sent, sent + [f], |sent|);
  }

  /** Where the parts of a transcript lie in it. */
  ghost predicate Laid(full: seq<Frame>, before: Source, reply: Reply, after: Source) {
    var start := |Announced(before)|;
    var end := start + |reply.chunks|;
    var last := |full| - 1;
    && last == end + (if reply.ending.Finished? then 0 else 1) + (if after == before then 0 else 1)
    && full[..start] == Announced(before)
    && (forall k :: start <= k < end ==> full[k] == Delta(reply.chunks[k - start]))
    && (!reply.ending.Finished? ==> full[end] == Error(KindOf(reply.ending), KindOf(reply.ending) in WORTH_RETRYING))
    && (after != before ==> full[last - 1] == Ref(if after.Source? then after.text else ""))
    && full[last] == Done
  }

  lemma OpeningIsLaid(before: Source, reply: Reply)
    ensures var told, start, end := Opening(before, reply), |Announced(before)|, |Announced(before)| + |reply.chunks|;
      && |told| == end + |Failure(reply.ending)|
      && told[..start] == Announced(before)
      && (forall k :: start <= k < end ==> told[k] == Delta(reply.chunks[k - start]))
      && (Failure(reply.ending) != [] ==> told[end] == Failure(reply.ending)[0])
  {
  }

  lemma TranscriptIsLaid(before: Source, reply: Reply, after: Source)
    ensures Laid(Transcript(before, reply, after), before, reply, after)
  {
    var told, full := Opening(before, reply), Transcript(before, reply, after);
    OpeningIsLaid(before, reply);
    assert forall k :: 0 <= k < |told| ==> full[k] == told[k];
    assert full[..|Announced(before)|] == told[..|Announced(before)|];
  }

  /** A reader who stays is told of a failure exactly when there is one: by its kind, and whether
      asking again may help; what the chain does not know is told as unavailable. */
  lemma FailureIsTold(before: Source, reply: Reply, after: Source, f: Frame)
    ensures var kind := if reply.ending.Refused? then reply.ending.kind else "unavailable";
      f.Error? && f in Transcript(before, reply, after)
      <==> !reply.ending.Finished? && f == Error(kind, kind == "rate_limit" || kind == "timeout" || kind == "unavailable")
  {
    var full := Transcript(before, reply, after);
    TranscriptIsLaid(before, reply, after);
    if f.Error? && f in full {
      var k :| 0 <= k < |full| && full[k] == f;
      assert forall i :: 0 <= i < |Announced(before)| ==> full[..|Announced(before)|][i] == full[i];
    }
  }

  lemma SilentStart(s: Source)
    ensures Said(Announced(s)) == []
  {
    assert SaidIn(Announced(s), 0) == [];
  }

  /** The generator behind the response, read until the reader leaves. */
  method EventStream(chain: Chain, b: Bundle, patience: nat) returns (x: Exchange, ghost reply: Reply)
    requires chain.providers != [] && patience >= 1
    modifies chain`lastUsed
    ensures IsOutcome(Attempts(b, chain.providers), reply)
    ensures IsExchange(b, chain.providers, reply, patience, x)
  {
    var sent: seq<Frame> := [];
    SilentStart(b.source);
    if b.source.Source? && b.source.text != "" {
      sent := [Ref(b.source.text)];
      if patience == 1 {
        reply := SomeOutcome(Attempts(b, chain.providers));
        return Exchange(sent, [], b.source), reply;
      }
    }
    assert sent == Announced(b.source) && Said(sent) == [];
    var whole, next := StreamAnswer(chain, b);
    reply := whole;
    TranscriptIsLaid(b.source, whole, next.source);
    x := Continue(b.source, whole, next.source, sent, patience, Transcript(b.source, whole, next.source));
  }

  /** The generator, after the first piece of the answer is asked for. */
  method Continue(before: Source, reply: Reply, after: Source, announced: seq<Frame>, patience: nat, ghost full: seq<Frame>)
    returns (x: Exchange)
    requires Laid(full, before, reply, after)
    requires announced == Announced(before) && Said(announced) == [] && |announced| < patience
    ensures x.sent == Take(full, patience)
    ensures x.answer == Said(x.sent) && x.source == after
  {
    var answer: seq<string> := [];
    var sent := announced;
    for i := 0 to |reply.chunks|
      invariant |sent| == |announced| + i < patience
      invariant sent == full[..|sent|] && answer == Said(sent)
    {
      SendOne(full, sent, Delta(reply.chunks[i]));
      answer := answer + [reply.chunks[i]];
      sent := sent + [Delta(reply.chunks[i])];
      if |sent| == patience {
        return Exchange(sent, answer, after);
      }
    }
    sent := Closing(before, reply.ending, after, sent, patience, full);
    return Exchange(sent, answer, after);
  }

  /** The frames after the answer: what went wrong, the corrected reference, and the end. */
  method Closing(before: Source, ending: Ending, after: Source, answered: seq<Frame>, patience: nat, ghost full: seq<Frame>)
    returns (sent: seq<Frame>)
    requires |answered| < patience && |answered| < |full| && answered == full[..|answered|]
    requires |full| == |answered| + 1 + (if ending.Finished? then 0 else 1) + (if after == before then 0 else 1)
    requires !ending.Finished? ==> full[|answered|] == Error(KindOf(ending), KindOf(ending) in WORTH_RETRYING)
    requires after != before ==> full[|full| - 2] == Ref(if after.Source? then after.text else "")
    requires full[|full| - 1] == Done
    ensures sent == Take(full, patience) && Said(sent) == Said(answered)
  {
    sent := answered;
    if !ending.Finished? {
      var f := Error(KindOf(ending), KindOf(ending) in WORTH_RETRYING);
      SendOne(full, sent, f);
      sent := sent + [f];
      if |sent| == patience {
        return;
      }
    }
    if after != before {
      var f := Ref(if after.Source? then after.text else "");
      SendOne(full, sent, f);
      sent := sent + [f];
      if |sent| == patience {
        return;
      }
    }
    SendOne(full, sent, Done);
    sent := sent + [Done];
  }

  ghost function SomeOutcome(attempts: seq<Attempt>): (o: Reply)
    requires attempts != []
    ensures IsOutcome(attempts, o)
  {
    DecidesOrAllPassed(attempts);
    if AllPassed(attempts) then Reply([], Reason(attempts[|attempts| - 1].reply))
    else
      var i :| 0 <= i < |attempts| && Decides(attempts, i);
      attempts[i].reply
  }

  // ----- charge and refund -----

  /** One question: charged before anything is asked, and handed back when nothing was said.
      `refusal` is the answer already known to a question that is not put to anyone. */
  method Ask(log: UsageLog, chain: Chain, user: nat, now: int, b: Bundle, refusal: Source, patience: nat)
    returns (sent: seq<Frame>, ghost reply: Reply)
    requires chain.providers != [] && log.Valid()
    modifies log`rows, log`nextId, chain`lastUsed
    ensures log.Valid() && IsOutcome(Attempts(b, chain.providers), reply)
    ensures refusal.Source? ==> log.rows == old(log.rows) && sent == Take([Delta(refusal.text), Done], patience)
    ensures refusal == NoSource && Judge(old(log.rows), log.limits, user, Teacher, now) != Admitted ==>
      log.rows == old(log.rows) && sent == Take([Error("limit", false), Done], patience)
    ensures refusal == NoSource && Judge(old(log.rows), log.limits, user, Teacher, now) == Admitted ==>
      && sent == Take(Transcript(b.source, reply, SourceAfter(b, chain.providers)), patience)
      && log.rows == if Said(sent) != [] || patience == 0
         then Charged(old(log.rows), old(log.nextId), user, Teacher, now)
         else old(log.rows)
  {
    reply := SomeOutcome(Attempts(b, chain.providers));
    if refusal.Source? {
      sent := Take([Delta(refusal.text), Done], patience);
      return;
    }
    var verdict := log.Enforce(user, Teacher, now);
    if verdict != Admitted {
      sent := Take([Error("limit", false), Done], patience);
      return;
    }
    ghost var before := log.rows;
    var id := log.Record(user, Teacher, now);
    if patience == 0 {
      sent := [];
      return;
    }
    var x;
    x, reply := EventStream(chain, b, patience);
    sent := x.sent;
    if x.answer == [] {
      HandBack(before, Row(id, user, Teacher, now));
      log.Refund(id);
    }
  }

  datatype Whole = Limited | Written(text: string) | Failed(kind: string)

  /** The same question answered whole, never with the image: charged before, and handed back
      on any failure. */
  method AskWhole(log: UsageLog, chain: Chain, user: nat, now: int, b: Bundle, refusal: Source)
    returns (a: Whole, ghost w: Written)
    requires chain.providers != [] && log.Valid()
    modifies log`rows, log`nextId, chain`lastUsed
    ensures log.Valid()
    ensures refusal.Source? ==> a == Whole.Written(refusal.text) && log.rows == old(log.rows)
    ensures a.Limited? <==> refusal == NoSource && Judge(old(log.rows), log.limits, user, Teacher, now) != Admitted
    ensures refusal == NoSource ==>
      log.rows == if a.Written? then Charged(old(log.rows), old(log.nextId), user, Teacher, now) else old(log.rows)
    ensures refusal == NoSource && !a.Limited? ==>
      a == Told(w) && IsOutcome(WriteAttempts(chain.providers, SystemFor(b)), AsReply(w))
  {
    w := Crashes;
    if refusal.Source? {
      a := Whole.Written(refusal.text);
      return;
    }
    var verdict := log.Enforce(user, Teacher, now);
    if verdict != Admitted {
      a := Limited;
      return;
    }
    ghost var before := log.rows;
    var id := log.Record(user, Teacher, now);
    var answer := chain.Chat(SystemFor(b));
    w := answer;
    if !answer.Answer? {
      HandBack(before, Row(id, user, Teacher, now));
      log.Refund(id);
    }
    a := Told(answer);
  }

  /** What the reader of a whole answer is told. */
  function Told(w: Written): Whole {
    match w
    case Answer(text) => Whole.Written(text)
    case Fails(kind) => Failed(kind)
    case Crashes => Failed("unavailable")
  }

  function SystemFor(b: Bundle): string {
    if b.image then WithoutImage(b).system else b.system
  }

  lemma HandBack(before: seq<Row>, row: Row)
    requires Unused(before, row.id)
    ensures Without(before + [row], row.id) == before
  {
    RefundUndoesCharge(before, row, []);
    assert before + [row] + [] == before + [row] && before + [] == before;
  }

  // ----- what a reader gets -----

  /** The seeing provider dropped out before a word was said. */
  predicate ImageFails(v: Reply) {
    v.chunks == [] && !v.ending.Crashed?
  }

  /** Where an answer comes from: the first provider alone while it is looking at the image; when
      it drops out, or there is no image, or nobody to see it, the whole chain, asked without the
      image by the prompt rebuilt for that, if it could be. The source follows the prompt. */
  lemma AnsweredFrom(b: Bundle, providers: seq<Provider>, o: Reply)
    requires providers != [] && IsOutcome(Attempts(b, providers), o)
    ensures var v := providers[0].answer(Vision(b.system));
      if !b.image || !providers[0].seesImages then IsOutcome(TextAttempts(providers, b.system), o) && SourceAfter(b, providers) == b.source
      else if !ImageFails(v) then o == v && SourceAfter(b, providers) == b.source
      else match b.rebuild
           case Rebuilt(system, source) => IsOutcome(TextAttempts(providers, system), o) && SourceAfter(b, providers) == source
           case _ => IsOutcome(TextAttempts(providers, b.system), o) && SourceAfter(b, providers) == b.source
  {
    if b.image && providers[0].seesImages {
      var first := Attempt(providers[0].answer(Vision(b.system)), true);
      var rest := TextAttempts(providers, WithoutImage(b).system);
      var alone := if Passed(first) then Reply([], Reason(first.reply)) else first.reply;
      assert Passed(first) || Decides([first], 0);
      assert IsOutcome([first], alone);
      BackupsChangeNoAnswer([first], rest, alone, o);
    }
  }

  /** A whole answer is never asked for with a prompt that says an image is attached, if there is
      another. */
  lemma WrittenFrom(b: Bundle, providers: seq<Provider>, w: Written)
    requires providers != [] && IsOutcome(WriteAttempts(providers, SystemFor(b)), AsReply(w))
    ensures var system := if b.image && b.rebuild.Rebuilt? then b.rebuild.system else b.system;
      forall i :: 0 <= i < |providers| && FirstToWrite(providers, system, i) ==> AsReply(w) == AsReply(providers[i].write(system))
  {
    FirstToHoldOutWrites(providers, SystemFor(b), AsReply(w));
  }

  /** The references a reader who stays is sent: the one announced, when there is anything to
      announce, and the one it was corrected to. */
  lemma RefsTold(before: Source, reply: Reply, after: Source, text: string)
    ensures Ref(text) in Transcript(before, reply, after)
      <==> (before == Source(text) && text != "") || (after != before && text == if after.Source? then after.text else "")
  {
    var full := Transcript(before, reply, after);
    TranscriptIsLaid(before, reply, after);
    assert forall i :: 0 <= i < |Announced(before)| ==> full[..|Announced(before)|][i] == full[i];
    if before == Source(text) && text != "" {
      assert full[0] == Ref(text);
    }
  }

  /** A reader who leaves at the announcement has put the question to nobody: what is stored for
      her is the source as announced. Whoever asks for one frame more has the source corrected. */
  lemma StoredSource(b: Bundle, providers: seq<Provider>, reply: Reply, patience: nat, x: Exchange)
    requires providers != [] && patience >= 1 && IsExchange(b, providers, reply, patience, x)
    ensures patience == 1 && b.source.Source? && b.source.text != "" ==> x == Exchange([Ref(b.source.text)], [], b.source)
    ensures patience > 1 || b.source == NoSource || b.source.text == "" ==> x.source == SourceAfter(b, providers)
  {
    var full := Transcript(b.source, reply, SourceAfter(b, providers));
    if patience == 1 && b.source.Source? && b.source.text != "" {
      assert full[..1] == [Ref(b.source.text)];
      SilentStart(b.source);
    }
  }

  function Earlier(i: int, n: nat): nat {
    if i <= 0 then 0 else if i < n then i else n
  }

  /** What has been said after `n` frames of a transcript. */
  lemma {:induction false} SaidUpTo(full: seq<Frame>, before: Source, reply: Reply, after: Source, n: nat)
    requires Laid(full, before, reply, after) && n <= |full|
    ensures SaidIn(full, n) == reply.chunks[..Earlier(n - |Announced(before)|, |reply.chunks|)]
  {
    if n > 0 {
      SaidUpTo(full, before, reply, after, n - 1);
      var start := |Announced(before)|;
      if n <= start {
        assert full[..start][n - 1] == full[n - 1];
      } else if n - start <= |reply.chunks| {
        assert full[n - 1] == Delta(reply.chunks[n - 1 - start]);
      }
    }
  }

  /** Whatever a reader has seen, whenever she left, is the beginning of what one attempt
      said: no answer is spliced from two. Staying to its end shows all of it. */
  lemma NothingIsSpliced(b: Bundle, providers: seq<Provider>, reply: Reply, patience: nat)
    requires providers != [] && IsOutcome(Attempts(b, providers), reply)
    ensures var said := Said(Take(Transcript(b.source, reply, SourceAfter(b, providers)), patience));
      && said <= reply.chunks
      && (patience >= |Announced(b.source)| + |reply.chunks| ==> said == reply.chunks)
      && (said != [] ==> exists i :: 0 <= i < |Attempts(b, providers)| && Decides(Attempts(b, providers), i) && said <= Attempts(b, providers)[i].reply.chunks)
  {
    var after := SourceAfter(b, providers);
    var full := Transcript(b.source, reply, after);
    var n := |Take(full, patience)|;
    TranscriptIsLaid(b.source, reply, after);
    SameFrames(Take(full, patience), full, n);
    SaidUpTo(full, b.source, reply, after, n);
  }

  lemma {:induction false} RefKept(full: seq<Frame>, from: nat, n: nat)
    requires from <= n <= |full| && forall i :: from <= i < n ==> !full[i].Ref?
    ensures LastRef(full, n) == LastRef(full, from)
  {
    if from < n {
      RefKept(full, from, n - 1);
    }
  }

  /** The reference a reader who stayed is left with is the one that is stored. */
  lemma LastRefIsStored(before: Source, reply: Reply, after: Source)
    ensures var full := Transcript(before, reply, after);
      LastRef(full, |full|) == if after.Source? then after.text else ""
  {
    var full := Transcript(before, reply, after);
    TranscriptIsLaid(before, reply, after);
    LaidRef(full, before, reply, after);
  }

  lemma LaidRef(full: seq<Frame>, before: Source, reply: Reply, after: Source)
    requires Laid(full, before, reply, after)
    ensures LastRef(full, |full|) == if after.Source? then after.text else ""
  {
    var start := |Announced(before)|;
    if after == before {
      RefKept(full, start, |full|);
      assert start == 1 ==> full[..start][0] == full[0];
    }
  }
}
