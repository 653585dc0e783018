/** A list of providers, of which the first to say anything gives the whole reply. Silence and
    known failures pass the question on. */
module ProviderChain {

  /** How a provider's stream ends; `Crashed` is any failure the chain does not know. */
  datatype Ending = Finished | Refused(kind: string) | Crashed

  datatype Reply = Reply(chunks: seq<string>, ending: Ending)

  /** What is put to a provider: the prompt alone, or with the slide's image. */
  datatype Prompt = Text(system: string) | Vision(system: string)

  /** What a provider gives when asked for its answer whole. */
  datatype Written = Answer(text: string) | Fails(kind: string) | Crashes

  datatype Provider = Provider(name: string, seesImages: bool, answer: Prompt -> Reply, write: string -> Written)

  const RETRYABLE: set<string> := {"rate_limit", "quota", "timeout", "unavailable", "auth", "bad_request"}

  /** One call that may be made: what it gives, and whether any refusal of it is passed over. */
  datatype Attempt = Attempt(reply: Reply, forgiving: bool)

  /** Ending well without a word counts as being unavailable. */
  function Reason(r: Reply): Ending {
    if r.ending.Finished? then Refused("unavailable") else r.ending
  }

  /** Said nothing, and failed in a way the next attempt might survive. */
  predicate Passed(a: Attempt) {
    a.reply.chunks == [] && Reason(a.reply).Refused? && (a.forgiving || Reason(a.reply).kind in RETRYABLE)
  }

  /** The first attempt that is not passed over. */
  predicate Decides(attempts: seq<Attempt>, i: nat) {
    i < |attempts| && !Passed(attempts[i]) && forall j :: 0 <= j < i ==> Passed(attempts[j])
  }

  predicate AllPassed(attempts: seq<Attempt>) {
    forall j :: 0 <= j < |attempts| ==> Passed(attempts[j])
  }

  /** The reply is the whole of one attempt's, or else the failure of the last. */
  predicate IsOutcome(attempts: seq<Attempt>, o: Reply) {
    || (exists i :: 0 <= i < |attempts| && Decides(attempts, i) && o == attempts[i].reply)
    || (AllPassed(attempts) && attempts != [] && o == Reply([], Reason(attempts[|attempts| - 1].reply)))
  }

  function TextAttempts(providers: seq<Provider>, system: string): (r: seq<Attempt>)
    ensures |r| == |providers|
  {
    seq(|providers|, i requires 0 <= i < |providers| => Attempt(providers[i].answer(Text(system)), false))
  }

  /** A whole answer is a reply of one piece. */
  function AsReply(w: Written): Reply {
    match w
    case Answer(text) => Reply([text], Finished)
    case Fails(kind) => Reply([], Refused(kind))
    case Crashes => Reply([], Crashed)
  }

  function WriteAttempts(providers: seq<Provider>, system: string): (r: seq<Attempt>)
    ensures |r| == |providers|
  {
    seq(|providers|, i requires 0 <= i < |providers| => Attempt(AsReply(providers[i].write(system)), false))
  }

  class Chain {
    const providers: seq<Provider>
    var lastUsed: nat

    constructor (providers: seq<Provider>)
      requires providers != []
      ensures this.providers == providers && lastUsed == 0
    {
      this.providers := providers;
      lastUsed := 0;
    }

    /** Ask each provider in turn for a whole answer. */
    method Chat(system: string) returns (w: Written)
      requires providers != []
      modifies this`lastUsed
      ensures IsOutcome(WriteAttempts(providers, system), AsReply(w))
      ensures if w.Answer? then Decides(WriteAttempts(providers, system), lastUsed) else lastUsed == old(lastUsed)
    {
      ghost var attempts := WriteAttempts(providers, system);
      w := Fails("unavailable");
      for i := 0 to |providers|
        invariant forall j :: 0 <= j < i ==> Passed(attempts[j])
        invariant lastUsed == old(lastUsed) && w.Fails?
        invariant i > 0 ==> AsReply(w).ending == Reason(attempts[i - 1].reply)
      {
        w := providers[i].write(system);
        if w.Answer? {
          lastUsed := i;
          assert Decides(attempts, i);
          return;
        }
        if w.Crashes? || w.kind !in RETRYABLE {
          assert Decides(attempts, i);
          return;
        }
      }
    }

    /** Ask each provider in turn, and pass on the first that says anything. */
    method ChatStream(system: string) returns (reply: Reply)
      requires providers != []
      modifies this`lastUsed
      ensures IsOutcome(TextAttempts(providers, system), reply)
      ensures reply.chunks == [] ==> lastUsed == old(lastUsed)
      ensures reply.chunks != [] ==> Decides(TextAttempts(providers, system), lastUsed)
    {
      ghost var attempts := TextAttempts(providers, system);
      var last := Refused("unavailable");
      for i := 0 to |providers|
        invariant forall j :: 0 <= j < i ==> Passed(attempts[j])
        invariant lastUsed == old(lastUsed)
        invariant i > 0 ==> last == Reason(attempts[i - 1].reply)
      {
        var stream := providers[i].answer(Text(system));
        if stream.chunks != [] {
          lastUsed := i;
          assert Decides(attempts, i);
          return stream;
        }
        var failure := if stream.ending.Finished? then Refused("unavailable") else stream.ending;
        if failure.Crashed? || failure.kind !in RETRYABLE {
          assert Decides(attempts, i);
          return stream;
        }
        last := failure;
      }
      return Reply([], last);
    }

    /** Ask the first provider with the image; nobody else in the chain sees it. */
    method ChatStreamVision(system: string) returns (reply: Reply)
      requires providers != []
      modifies this`lastUsed
      ensures var r := providers[0].answer(Vision(system));
        reply == if r.chunks == [] then Reply([], Reason(r)) else r
      ensures lastUsed == if reply.chunks == [] then old(lastUsed) else 0
    {
      var stream := providers[0].answer(Vision(system));
      if stream.chunks == [] {
        return Reply([], if stream.ending.Finished? then Refused("unavailable") else stream.ending);
      }
      lastUsed := 0;
      return stream;
    }
  }

  // ----- what an outcome is -----

  /** There is exactly one outcome: one attempt alone decides. */
  lemma OneOutcome(attempts: seq<Attempt>, o: Reply, p: Reply)
    requires IsOutcome(attempts, o) && IsOutcome(attempts, p)
    ensures o == p
  {
  }

  lemma {:induction false} DecidesOrAllPassed(attempts: seq<Attempt>)
    ensures AllPassed(attempts) || exists i :: 0 <= i < |attempts| && Decides(attempts, i)
  {
    if attempts != [] {
      var front := attempts[..|attempts| - 1];
      DecidesOrAllPassed(front);
      if AllPassed(front) {
        assert forall j :: 0 <= j < |front| ==> Passed(front[j]) && front[j] == attempts[j];
        if !Passed(attempts[|front|]) {
          assert Decides(attempts, |front|);
        }
      } else {
        var i :| 0 <= i < |front| && Decides(front, i);
        assert forall j :: 0 <= j <= i ==> front[j] == attempts[j];
        assert Decides(attempts, i);
      }
    }
  }

  predicate Speaks(a: Attempt) {
    a.reply.chunks != []
  }

  /** Something is said exactly when some attempt speaks and everything before it was passed
      over; so when every failure is of a known, retryable kind, one provider able to answer
      is enough. */
  lemma SilentOnlyIfNobodySpeaks(attempts: seq<Attempt>, o: Reply)
    requires IsOutcome(attempts, o)
    ensures o.chunks != [] <==> exists i :: 0 <= i < |attempts| && Speaks(attempts[i]) && forall j :: 0 <= j < i ==> Passed(attempts[j])
    ensures (forall i :: 0 <= i < |attempts| ==> Speaks(attempts[i]) || Passed(attempts[i])) ==>
      (o.chunks == [] <==> forall i :: 0 <= i < |attempts| ==> !Speaks(attempts[i]))
  {
    if i :| 0 <= i < |attempts| && Decides(attempts, i) && o == attempts[i].reply {
      assert Speaks(attempts[i]) || !(Speaks(attempts[i]) || Passed(attempts[i]));
    } else {
      assert forall i :: 0 <= i < |attempts| ==> Passed(attempts[i]) && !Speaks(attempts[i]);
    }
  }

  /** A provider that says nothing, for a reason the next one might not have. */
  predicate GivesUp(r: Reply) {
    r.chunks == []
    && match r.ending
       case Finished => true
       case Crashed => false
       case Refused(kind) =>
         kind == "rate_limit" || kind == "quota" || kind == "timeout" || kind == "unavailable" || kind == "auth" || kind == "bad_request"
  }

  predicate HoldsOut(providers: seq<Provider>, system: string, i: nat)
    requires i < |providers|
  {
    !GivesUp(providers[i].answer(Text(system))) && forall j :: 0 <= j < i ==> GivesUp(providers[j].answer(Text(system)))
  }

  /** The answer is that of the first provider that does not give up, whether it speaks or fails
      in some other way; when all give up, nothing is said and the last one's failure is told. */
  lemma FirstToHoldOutAnswers(providers: seq<Provider>, system: string, o: Reply)
    requires IsOutcome(TextAttempts(providers, system), o) && providers != []
    ensures forall i :: 0 <= i < |providers| && HoldsOut(providers, system, i) ==> o == providers[i].answer(Text(system))
    ensures (forall j :: 0 <= j < |providers| ==> GivesUp(providers[j].answer(Text(system)))) ==>
      var last := providers[|providers| - 1].answer(Text(system)).ending;
      o == Reply([], if last.Finished? then Refused("unavailable") else last)
  {
    var attempts := TextAttempts(providers, system);
    assert forall i :: 0 <= i < |providers| ==> (Passed(attempts[i]) <==> GivesUp(providers[i].answer(Text(system))));
  }

  /** Asked for a whole answer, the providers are passed over in the same way. */
  lemma FirstToHoldOutWrites(providers: seq<Provider>, system: string, o: Reply)
    requires IsOutcome(WriteAttempts(providers, system), o) && providers != []
    ensures forall i :: 0 <= i < |providers| && FirstToWrite(providers, system, i) ==> o == AsReply(providers[i].write(system))
    ensures (forall j :: 0 <= j < |providers| ==> GivesUp(AsReply(providers[j].write(system)))) ==>
      o == AsReply(providers[|providers| - 1].write(system))
  {
    var attempts := WriteAttempts(providers, system);
    assert forall i :: 0 <= i < |providers| ==> (Passed(attempts[i]) <==> GivesUp(AsReply(providers[i].write(system))));
  }

  predicate FirstToWrite(providers: seq<Provider>, system: string, i: nat)
    requires i < |providers|
  {
    !GivesUp(AsReply(providers[i].write(system))) && forall j :: 0 <= j < i ==> GivesUp(AsReply(providers[j].write(system)))
  }

  /** Backups never change an answer, or a failure no backup was to be asked about. */
  lemma BackupsChangeNoAnswer(attempts: seq<Attempt>, backups: seq<Attempt>, o: Reply, p: Reply)
    requires IsOutcome(attempts, o) && IsOutcome(attempts + backups, p)
    ensures !AllPassed(attempts) ==> o == p
    ensures AllPassed(attempts) && backups != [] ==> IsOutcome(backups, p)
  {
    var all := attempts + backups;
    if i :| 0 <= i < |attempts| && Decides(attempts, i) && o == attempts[i].reply {
      assert forall j :: 0 <= j <= i ==> all[j] == attempts[j];
      assert Decides(all, i);
      assert IsOutcome(all, o);
      OneOutcome(all, o, p);
    } else if backups != [] {
      if i :| 0 <= i < |all| && Decides(all, i) && p == all[i].reply {
        assert i >= |attempts|;
        assert forall j :: 0 <= j <= i - |attempts| ==> backups[j] == all[|attempts| + j];
        assert Decides(backups, i - |attempts|);
      } else {
        assert forall j :: 0 <= j < |backups| ==> backups[j] == all[|attempts| + j];
      }
    }
  }
}
