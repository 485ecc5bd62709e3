/**
 The inbox of one test over a shared mail catcher: lookups poll for a message, remember what
 they matched, and the cleanup deletes exactly that.
 */
module MailWait {
  import opened Prelude

  datatype Summary = Summary(id: string, to: seq<string>, subject: string)

  datatype Match = Match(to: string, subject: string)

  /** Why a context ended. */
  datatype Cause = DeadlineExceeded | Canceled

  /** A failed request; `causes` is what `errors.Is` finds in it. */
  datatype Failure = Failure(code: int, causes: set<Cause>)

  /** What the client does for an id, and how `strings.EqualFold` folds a string. */
  datatype Setup = Setup(fold: string -> string, get: string -> Result<string, Failure>)

  /**
   One turn of the polling loop: what the search returned, the state of the wait's context
   right after it, and whether the turn ended with the context done.
   */
  datatype Round = Round(found: Result<seq<Summary>, Failure>, expired: Option<Cause>, done: bool)

  datatype WaitError = GetFailed(f: Failure) | NoMail(held: seq<Summary>, listErr: Option<Failure>)

  // ----- matching -----

  /** The exact recipient up to case, and the exact subject unless none is asked for. */
  predicate Matches(st: Setup, m: Match, s: Summary) {
    && (m.subject == "" || s.subject == m.subject)
    && exists k :: 0 <= k < |s.to| && st.fold(s.to[k]) == st.fold(m.to)
  }

  /** The id of the first matching row, or the empty string. */
  function FirstMatching(st: Setup, m: Match, rows: seq<Summary>): (id: string)
    ensures id != "" ==> exists k :: 0 <= k < |rows| && rows[k].id == id && Matches(st, m, rows[k])
  {
    if rows == [] then ""
    else if Matches(st, m, rows[0]) then rows[0].id
    else FirstMatching(st, m, rows[1..])
  }

  lemma {:induction false} FirstMatchingIsFirst(st: Setup, m: Match, rows: seq<Summary>, k: nat)
    requires k <= |rows| && forall j :: 0 <= j < k ==> !Matches(st, m, rows[j])
    ensures FirstMatching(st, m, rows) == if k == |rows| then "" else FirstMatching(st, m, rows[k..])
  {
    if k > 0 {
      FirstMatchingIsFirst(st, m, rows[1..], k - 1);
      assert k < |rows| ==> rows[1..][k - 1..] == rows[k..];
    }
  }

  /** `find`. */
  method Find(st: Setup, m: Match, found: Result<seq<Summary>, Failure>) returns (r: Result<string, Failure>)
    ensures found.Ok? ==> r == Ok(FirstMatching(st, m, found.value))
    ensures found.Err? ==> r == Err(found.error)
  {
    if found.Err? { return Err(found.error); }
    var rows := found.value;
    for i := 0 to |rows|
      invariant forall j :: 0 <= j < i ==> !Matches(st, m, rows[j])
    {
      if m.subject != "" && rows[i].subject != m.subject { continue; }
      for k := 0 to |rows[i].to|
        invariant forall j :: 0 <= j < k ==> st.fold(rows[i].to[j]) != st.fold(m.to)
      {
        if st.fold(rows[i].to[k]) == st.fold(m.to) {
          FirstMatchingIsFirst(st, m, rows, i);
          assert rows[i..][0] == rows[i];
          return Ok(rows[i].id);
        }
      }
    }
    FirstMatchingIsFirst(st, m, rows, |rows|);
    r := Ok("");
  }

  // ----- waiting -----

  /** The id a turn matched, or the empty string. */
  function Hit(st: Setup, m: Match, r: Round): string {
    if r.found.Ok? then FirstMatching(st, m, r.found.value) else ""
  }

  predicate Ends(st: Setup, m: Match, r: Round) {
    Hit(st, m, r) != "" || r.done
  }

  /** The turn the wait ends with. The deadline ends some turn. */
  function LastTurn(st: Setup, m: Match, rounds: seq<Round>): (k: nat)
    requires rounds != [] && rounds[|rounds| - 1].done
    ensures k < |rounds| && Ends(st, m, rounds[k])
    ensures forall j :: 0 <= j < k ==> !Ends(st, m, rounds[j])
  {
    if Ends(st, m, rounds[0]) then 0 else 1 + LastTurn(st, m, rounds[1..])
  }

  /** The wait's own deadline cut the request of this turn short. */
  predicate OwnCutoff(r: Round) {
    r.expired.Some? && r.found.Err? && r.expired.value in r.found.error.causes
  }

  function ErrorOf(r: Round): Option<Failure> {
    if r.found.Err? then Some(r.found.error) else None
  }

  /** The error kept over some turns. */
  function Kept(rounds: seq<Round>): Option<Failure> {
    if rounds == [] then None
    else if OwnCutoff(rounds[|rounds| - 1]) then Kept(rounds[..|rounds| - 1])
    else ErrorOf(rounds[|rounds| - 1])
  }

  /** The kept error is that of the last turn not cut short by the wait's own deadline. */
  lemma {:induction false} KeptIsLastOwnOutcome(rounds: seq<Round>, k: nat)
    requires k <= |rounds| && forall j :: k <= j < |rounds| ==> OwnCutoff(rounds[j])
    ensures k == 0 ==> Kept(rounds) == None
    ensures k > 0 && !OwnCutoff(rounds[k - 1]) ==> Kept(rounds) == ErrorOf(rounds[k - 1])
  {
    if k < |rounds| {
      KeptIsLastOwnOutcome(rounds[..|rounds| - 1], k);
    }
  }

  /** What a wait returns and what it matched. */
  function Waited(st: Setup, m: Match, rounds: seq<Round>, listing: Result<seq<Summary>, Failure>): Result<string, WaitError>
    requires rounds != [] && rounds[|rounds| - 1].done
  {
    var k := LastTurn(st, m, rounds);
    var id := Hit(st, m, rounds[k]);
    if id != "" then
      match st.get(id)
      case Ok(msg) => Ok(msg)
      case Err(e) => Err(GetFailed(e))
    else
      match listing
      case Ok(held) => Err(NoMail(held, Kept(rounds[..k + 1])))
      case Err(e) => Err(NoMail([], Some(e)))
  }

  /** The turn's search holds a message for the recipient with the subject, if one is asked for, and the first has this id. */
  ghost predicate Found(st: Setup, m: Match, r: Round, id: string) {
    && r.found.Ok? && id != ""
    && exists j :: 0 <= j < |r.found.value| && r.found.value[j].id == id && FirstFor(st, m, r.found.value, j)
  }

  ghost predicate FirstFor(st: Setup, m: Match, rows: seq<Summary>, j: nat)
    requires j < |rows|
  {
    IsFor(st, m, rows[j].to, rows[j].subject) && forall i :: 0 <= i < j ==> !IsFor(st, m, rows[i].to, rows[i].subject)
  }

  ghost predicate IsFor(st: Setup, m: Match, to: seq<string>, subject: string) {
    (m.subject != "" ==> subject == m.subject) && exists a :: a in to && st.fold(a) == st.fold(m.to)
  }

  lemma {:induction false} MatchesIsFor(st: Setup, m: Match, s: Summary)
    ensures Matches(st, m, s) <==> IsFor(st, m, s.to, s.subject)
  {}

  lemma {:induction false} FoundIsHit(st: Setup, m: Match, r: Round, id: string)
    ensures Found(st, m, r, id) <==> id != "" && Hit(st, m, r) == id
  {
    if r.found.Ok? {
      var rows := r.found.value;
      forall s ensures Matches(st, m, s) <==> IsFor(st, m, s.to, s.subject) {
        MatchesIsFor(st, m, s);
      }
      var j := FirstOrNone(st, m, rows, 0);
      FirstMatchingIsFirst(st, m, rows, j);
    }
  }

  lemma {:induction false} FirstOrNone(st: Setup, m: Match, rows: seq<Summary>, from: nat) returns (j: nat)
    requires from <= |rows| && forall i :: 0 <= i < from ==> !Matches(st, m, rows[i])
    ensures j <= |rows| && (forall i :: 0 <= i < j ==> !Matches(st, m, rows[i])) && (j < |rows| ==> Matches(st, m, rows[j]))
    decreases |rows| - from
  {
    if from == |rows| || Matches(st, m, rows[from]) {
      j := from;
    } else {
      j := FirstOrNone(st, m, rows, from + 1);
    }
  }

  /** The first turn that is the last one of the wait or finds a message. */
  ghost predicate Decisive(st: Setup, m: Match, rounds: seq<Round>, k: nat)
    requires k < |rounds|
  {
    && (forall i :: 0 <= i < k ==> !rounds[i].done && forall id :: !Found(st, m, rounds[i], id))
    && (rounds[k].done || exists id :: Found(st, m, rounds[k], id))
  }

  /**
   What a wait comes to, decided by the first turn that is the last or finds a message: with the
   message found there, or the client's failure to get it, and with none exactly if none is found.
   */
  lemma {:induction false} WaitDecides(st: Setup, m: Match, rounds: seq<Round>, listing: Result<seq<Summary>, Failure>, k: nat)
    requires rounds != [] && rounds[|rounds| - 1].done
    requires k < |rounds| && Decisive(st, m, rounds, k)
    ensures var r := Waited(st, m, rounds, listing);
            && (forall id :: Found(st, m, rounds[k], id) ==>
                  r == if st.get(id).Ok? then Ok(st.get(id).value) else Err(GetFailed(st.get(id).error)))
            && (r.Err? && r.error.NoMail? <==> forall id :: !Found(st, m, rounds[k], id))
  {
    forall i, id | 0 <= i < |rounds| ensures Found(st, m, rounds[i], id) <==> id != "" && Hit(st, m, rounds[i]) == id {
      FoundIsHit(st, m, rounds[i], id);
    }
    assert forall i :: 0 <= i < k ==> !Ends(st, m, rounds[i]) by {
      forall i | 0 <= i < k ensures !Ends(st, m, rounds[i]) {
        assert !Found(st, m, rounds[i], Hit(st, m, rounds[i]));
      }
    }
    assert Ends(st, m, rounds[k]);
    assert LastTurn(st, m, rounds) == k;
    assert Hit(st, m, rounds[k]) != "" ==> Found(st, m, rounds[k], Hit(st, m, rounds[k]));
  }

  /** Some turn decides. */
  lemma {:induction false} SomeTurnDecides(st: Setup, m: Match, rounds: seq<Round>)
    requires rounds != [] && rounds[|rounds| - 1].done
    ensures Decisive(st, m, rounds, LastTurn(st, m, rounds))
  {
    forall i, id | 0 <= i < |rounds| ensures Found(st, m, rounds[i], id) <==> id != "" && Hit(st, m, rounds[i]) == id {
      FoundIsHit(st, m, rounds[i], id);
    }
    var k := LastTurn(st, m, rounds);
    if !rounds[k].done {
      assert Found(st, m, rounds[k], Hit(st, m, rounds[k]));
    }
  }

  /** A message is only returned, and an id only remembered, for a row that matches exactly. */
  lemma {:induction false} OnlyMatchesAreReturned(st: Setup, m: Match, rounds: seq<Round>, listing: Result<seq<Summary>, Failure>)
    requires rounds != [] && rounds[|rounds| - 1].done
    ensures var r := Waited(st, m, rounds, listing);
            r.Ok? || r.error.GetFailed? ==>
              exists k, j :: 0 <= k < |rounds| && rounds[k].found.Ok? && 0 <= j < |rounds[k].found.value|
                && Matches(st, m, rounds[k].found.value[j]) && rounds[k].found.value[j].id != ""
                && (r.Ok? ==> st.get(rounds[k].found.value[j].id) == Ok(r.value))
  {}

  /** The search failed for the very reason the wait's context had ended with. */
  ghost predicate CutShort(found: Result<seq<Summary>, Failure>, expired: Option<Cause>) {
    exists cause :: expired == Some(cause) && found.Err? && cause in found.error.causes
  }

  /**
   What a timeout reports: the listing's own failure if it failed, else the error of the last
   turn k not cut short by the wait's own deadline, which is nothing when that turn's search worked.
   */
  lemma {:induction false} TimeoutReports(st: Setup, m: Match, rounds: seq<Round>, listing: Result<seq<Summary>, Failure>, k: nat)
    requires rounds != [] && rounds[|rounds| - 1].done
    requires Hit(st, m, rounds[LastTurn(st, m, rounds)]) == ""
    requires k <= LastTurn(st, m, rounds) && !CutShort(rounds[k].found, rounds[k].expired)
    requires forall j :: k < j <= LastTurn(st, m, rounds) ==> CutShort(rounds[j].found, rounds[j].expired)
    ensures Waited(st, m, rounds, listing) == Err(if listing.Err? then NoMail([], Some(listing.error))
                                                  else NoMail(listing.value, if rounds[k].found.Err? then Some(rounds[k].found.error) else None))
  {
    KeptIsLastOwnOutcome(rounds[..LastTurn(st, m, rounds) + 1], k + 1);
  }

  // ----- remembering and deleting -----

  function Remembered(ids: seq<string>, id: string): (r: seq<string>) {
    if id in ids then ids else ids + [id]
  }

  predicate NoDuplicates(ids: seq<string>) {
    forall j, k :: 0 <= j < k < |ids| ==> ids[j] != ids[k]
  }

  /** A lookup of a test: a wait, or one absence check. */
  datatype Lookup =
    | Wait(m: Match, rounds: seq<Round>, listing: Result<seq<Summary>, Failure>)
    | Seen(m: Match, found: Result<seq<Summary>, Failure>)

  predicate Terminates(l: Lookup) {
    l.Wait? ==> l.rounds != [] && l.rounds[|l.rounds| - 1].done
  }

  /** The id a lookup matched, or the empty string. */
  function Matched(st: Setup, l: Lookup): string
    requires Terminates(l)
  {
    match l
    case Wait(m, rounds, _) => Hit(st, m, rounds[LastTurn(st, m, rounds)])
    case Seen(m, found) => if found.Ok? then FirstMatching(st, m, found.value) else ""
  }

  function IdsAfter(st: Setup, lookups: seq<Lookup>): seq<string>
    requires forall l :: l in lookups ==> Terminates(l)
  {
    if lookups == [] then []
    else
      var before := IdsAfter(st, lookups[..|lookups| - 1]);
      var id := Matched(st, lookups[|lookups| - 1]);
      if id == "" then before else Remembered(before, id)
  }

  /** Over all lookups, the remembered ids are the matched ones, each once. */
  lemma {:induction false} RemembersWhatWasMatched(st: Setup, lookups: seq<Lookup>, id: string)
    requires forall l :: l in lookups ==> Terminates(l)
    ensures NoDuplicates(IdsAfter(st, lookups))
    ensures id in IdsAfter(st, lookups) <==> id != "" && exists k :: 0 <= k < |lookups| && Matched(st, lookups[k]) == id
  {
    if lookups != [] {
      var front, last := lookups[..|lookups| - 1], lookups[|lookups| - 1];
      RemembersWhatWasMatched(st, front, id);
      assert forall k :: 0 <= k < |front| ==> front[k] == lookups[k];
      assert lookups[|lookups| - 1] == last;
    }
  }

  function Without(messages: seq<Summary>, ids: seq<string>): (r: seq<Summary>)
    ensures forall s :: s in r <==> s in messages && s.id !in ids
  {
    if messages == [] then []
    else (if messages[0].id in ids then [] else [messages[0]]) + Without(messages[1..], ids)
  }

  lemma {:induction false} WithoutNothing(messages: seq<Summary>)
    ensures Without(messages, []) == messages
  {
    if messages != [] {
      WithoutNothing(messages[1..]);
    }
  }

  /** The catcher's store, shared by parallel tests. */
  class Mailpit {
    var messages: seq<Summary>

    constructor (messages: seq<Summary>)
      ensures this.messages == messages
    {
      this.messages := messages;
    }

    /** The DELETE endpoint, for which an empty list means every message. */
    method Delete(ids: seq<string>)
      modifies this
      ensures messages == if ids == [] then [] else Without(old(messages), ids)
    {
      messages := if ids == [] then [] else Without(messages, ids);
    }

    /** `remove`: never asks the endpoint with an empty list. */
    method Remove(ids: seq<string>)
      modifies this
      ensures messages == Without(old(messages), ids)
    {
      if |ids| == 0 {
        WithoutNothing(messages);
        return;
      }
      Delete(ids);
    }
  }

  class Inbox {
    const mp: Mailpit
    var ids: seq<string>

    constructor (mp: Mailpit)
      ensures this.mp == mp && ids == []
    {
      this.mp, ids := mp, [];
    }

    method Remember(id: string)
      modifies this
      ensures ids == Remembered(old(ids), id)
    {
      if id !in ids {
        ids := ids + [id];
      }
    }

    /** The polling loop of `wait`. */
    method Wait(st: Setup, m: Match, rounds: seq<Round>, listing: Result<seq<Summary>, Failure>)
      returns (r: Result<string, WaitError>)
      requires rounds != [] && rounds[|rounds| - 1].done
      modifies this
      ensures r == Waited(st, m, rounds, listing)
      ensures var id := Hit(st, m, rounds[LastTurn(st, m, rounds)]);
              ids == if id == "" then old(ids) else Remembered(old(ids), id)
    {
      var lastErr: Option<Failure> := None;
      var i := 0;
      while true
        invariant 0 <= i <= LastTurn(st, m, rounds)
        invariant lastErr == Kept(rounds[..i]) && ids == old(ids)
        decreases |rounds| - i
      {
        var id := Find(st, m, rounds[i].found);
        if id.Ok? && id.value != "" {
          Remember(id.value);
          var msg := st.get(id.value);
          return if msg.Ok? then Ok(msg.value) else Err(GetFailed(msg.error));
        }
        assert rounds[..i + 1][..i] == rounds[..i];
        if !(rounds[i].expired.Some? && id.Err? && rounds[i].expired.value in id.error.causes) {
          lastErr := if id.Err? then Some(id.error) else None;
        }
        if rounds[i].done {
          var listErr := if listing.Err? then Some(listing.error) else lastErr;
          return Err(NoMail(if listing.Ok? then listing.value else [], listErr));
        }
        i := i + 1;
      }
    }

    /** `seen`. */
    method Seen(st: Setup, m: Match, found: Result<seq<Summary>, Failure>) returns (r: Result<bool, Failure>)
      modifies this
      ensures match found
              case Err(e) => r == Err(e) && ids == old(ids)
              case Ok(rows) =>
                var id := FirstMatching(st, m, rows);
                r == Ok(id != "") && ids == if id == "" then old(ids) else Remembered(old(ids), id)
    {
      var id := Find(st, m, found);
      if id.Err? { return Err(id.error); }
      if id.value == "" { return Ok(false); }
      Remember(id.value);
      r := Ok(true);
    }

    /** `cleanup`. */
    method Cleanup()
      modifies mp
      ensures mp.messages == Without(old(mp.messages), ids)
    {
      mp.Remove(ids);
    }
  }

  /**
   A whole test: whatever lookups it makes and however they end, the cleanup leaves in the
   shared store exactly the messages none of them matched.
   */
  method Session(st: Setup, mp: Mailpit, lookups: seq<Lookup>)
    requires forall l :: l in lookups ==> Terminates(l)
    modifies mp
    ensures forall s :: s in mp.messages <==>
              s in old(mp.messages) && (s.id == "" || forall k :: 0 <= k < |lookups| ==> Matched(st, lookups[k]) != s.id)
  {
    var inbox := new Inbox(mp);
    for i := 0 to |lookups|
      invariant inbox.mp == mp && fresh(inbox) && mp.messages == old(mp.messages)
      invariant inbox.ids == IdsAfter(st, lookups[..i])
    {
      assert lookups[..i + 1][..i] == lookups[..i];
      assert Terminates(lookups[i]);
      match lookups[i]
      case Wait(m, rounds, listing) => var _ := inbox.Wait(st, m, rounds, listing);
      case Seen(m, found) => var _ := inbox.Seen(st, m, found);
    }
    assert lookups[..|lookups|] == lookups;
    inbox.Cleanup();
    forall id: string
      ensures id in inbox.ids <==> id != "" && exists k :: 0 <= k < |lookups| && Matched(st, lookups[k]) == id
    {
      RemembersWhatWasMatched(st, lookups, id);
    }
  }
}
