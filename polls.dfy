/**
 * The polls screen: the pending choice per poll, submitting a vote (which
 * moves the member's vote to the chosen option and nowhere else), the vote
 * totals and rounded percentages, and the editor that adds and removes polls
 * and options and edits their texts. `now` stands for `Date.now()` and
 * `confirmed` for the answer to the browser's confirmation dialog.
 */
module Polls {
  import opened Wrappers
  import opened Types
  import opened Strings
  import Seqs
  import Records

  /** `pendingSelections`: poll id to the option id chosen but not yet submitted. */
  type Pending = map<string, string>

  /** `pendingSelections[pollId]` read as a JavaScript truthiness test: a missing or empty entry is no selection. */
  function PendingChoice(pending: Pending, pollId: string): (r: Option<string>)
    ensures r.Some? <==> pollId in pending && pending[pollId] != ""
    ensures r.Some? ==> r.value == pending[pollId]
  {
    if pollId in pending && pending[pollId] != "" then Some(pending[pollId]) else None
  }

  /** `handleSelect`: record the choice for one poll, keeping the others. */
  function Select(pending: Pending, pollId: string, optionId: string): (r: Pending)
    ensures r.Keys == pending.Keys + {pollId}
    ensures r[pollId] == optionId
    ensures forall k :: k in pending && k != pollId ==> r[k] == pending[k]
  {
    pending[pollId := optionId]
  }

  /** One option after the member votes for `selected`: the member is taken out, then put last if this is the chosen option. */
  function Recast(opt: PollOption, user: string, selected: string): PollOption {
    var kept := Seqs.RemoveAll(opt.votes, user);
    opt.(votes := if opt.id == selected then kept + [user] else kept)
  }

  /** The poll after the member votes for `selected`. */
  function VotePoll(p: Poll, user: string, selected: string): (q: Poll)
    ensures q.id == p.id && q.question == p.question && q.active == p.active
    ensures |q.options| == |p.options|
  {
    p.(options := seq(|p.options|, i requires 0 <= i < |p.options| => Recast(p.options[i], user, selected)))
  }

  /** What a submit leaves behind: the collection handed to `onUpdatePolls` (none when nothing was submitted) and the pending choices. */
  datatype Submitted = Submitted(polls: Option<seq<Poll>>, pending: Pending)

  /** `handleSubmitVote(pollId)` by `user`. */
  function SubmitVote(polls: seq<Poll>, pending: Pending, pollId: string, user: string): (r: Submitted)
    ensures r.polls.None? <==> PendingChoice(pending, pollId).None?
    ensures r.polls.None? ==> r.pending == pending
    ensures r.polls.Some? ==> r.pending == pending - {pollId}
    ensures r.polls.Some? ==> |r.polls.value| == |polls|
  {
    match PendingChoice(pending, pollId)
    case None => Submitted(None, pending)
    case Some(selected) =>
      var updated := seq(|polls|, i requires 0 <= i < |polls| =>
        if polls[i].id != pollId then polls[i] else VotePoll(polls[i], user, selected));
      Submitted(Some(updated), pending - {pollId})
  }

  /** A submit touches only the polls with the submitted id, recasting exactly their votes, and keeps every poll's id in place. */
  lemma SubmitTouchesOnlyItsPoll(polls: seq<Poll>, pending: Pending, pollId: string, user: string, i: int)
    requires PendingChoice(pending, pollId).Some?
    requires 0 <= i < |polls|
    ensures var after := SubmitVote(polls, pending, pollId, user).polls.value;
      && after[i].id == polls[i].id
      && (polls[i].id != pollId ==> after[i] == polls[i])
      && (polls[i].id == pollId ==> after[i] == VotePoll(polls[i], user, pending[pollId]))
  {
  }

  /** After voting, the member is in the chosen option's votes exactly once and in no other option. */
  lemma {:induction false} VotedOnce(p: Poll, user: string, selected: string, j: int)
    requires 0 <= j < |p.options|
    ensures multiset(VotePoll(p, user, selected).options[j].votes)[user] == if p.options[j].id == selected then 1 else 0
  {
    var opt := p.options[j];
    var kept := Seqs.RemoveAll(opt.votes, user);
    assert VotePoll(p, user, selected).options[j] == Recast(opt, user, selected);
    Seqs.RemoveAllCount(opt.votes, user);
    assert multiset(kept)[user] == 0;
    if opt.id == selected {
      assert multiset(kept + [user]) == multiset(kept) + multiset{user};
    }
  }

  /** Every other member's votes, and their order, are as before in every option. */
  lemma VoteKeepsOthers(p: Poll, user: string, selected: string, j: int)
    requires 0 <= j < |p.options|
    ensures Seqs.RemoveAll(VotePoll(p, user, selected).options[j].votes, user) == Seqs.RemoveAll(p.options[j].votes, user)
  {
    var opt := p.options[j];
    assert VotePoll(p, user, selected).options[j] == Recast(opt, user, selected);
    Seqs.RemoveAllIdempotent(opt.votes, user);
    if opt.id == selected {
      Seqs.RemoveAllAppendSelf(Seqs.RemoveAll(opt.votes, user), user);
    }
  }

  /** Voting keeps each option's id, title and description. */
  lemma VoteKeepsOptions(p: Poll, user: string, selected: string, j: int)
    requires 0 <= j < |p.options|
    ensures var o := VotePoll(p, user, selected).options[j];
      o.id == p.options[j].id && o.title == p.options[j].title && o.description == p.options[j].description
  {
  }

  /** One member's membership in an option's votes after the vote. */
  lemma VoteMembership(p: Poll, user: string, selected: string, j: int, v: string)
    requires 0 <= j < |p.options|
    ensures v in VotePoll(p, user, selected).options[j].votes <==>
      if v == user then p.options[j].id == selected else v in p.options[j].votes
  {
    var q := VotePoll(p, user, selected);
    VotedOnce(p, user, selected, j);
    assert user in q.options[j].votes <==> user in multiset(q.options[j].votes);
    if v != user {
      VoteKeepsOthers(p, user, selected, j);
      Seqs.RemoveAllMembership(q.options[j].votes, user, v);
      Seqs.RemoveAllMembership(p.options[j].votes, user, v);
    }
  }

  /** With distinct option ids, voting keeps every member in at most one option of the poll. */
  lemma VoteKeepsSingleChoice(p: Poll, user: string, selected: string)
    requires SingleChoice(p) && DistinctOptionIds(p)
    ensures SingleChoice(VotePoll(p, user, selected))
  {
    var q := VotePoll(p, user, selected);
    forall i, j, v | 0 <= i < |q.options| && 0 <= j < |q.options| && i != j && v in q.options[i].votes
      ensures v !in q.options[j].votes
    {
      VoteMembership(p, user, selected, i, v);
      VoteMembership(p, user, selected, j, v);
    }
  }

  /** Submitting keeps single-choice voting, and distinct option ids, in every poll whose option ids are distinct. */
  lemma SubmitKeepsSingleChoice(polls: seq<Poll>, pending: Pending, pollId: string, user: string)
    requires forall i :: 0 <= i < |polls| ==> SingleChoice(polls[i]) && DistinctOptionIds(polls[i])
    requires PendingChoice(pending, pollId).Some?
    ensures var after := SubmitVote(polls, pending, pollId, user).polls.value;
      forall i :: 0 <= i < |after| ==> SingleChoice(after[i]) && DistinctOptionIds(after[i])
  {
    var after := SubmitVote(polls, pending, pollId, user).polls.value;
    forall i | 0 <= i < |after| ensures SingleChoice(after[i]) && DistinctOptionIds(after[i]) {
      if polls[i].id == pollId {
        VoteKeepsSingleChoice(polls[i], user, pending[pollId]);
        forall a | 0 <= a < |polls[i].options| ensures after[i].options[a].id == polls[i].options[a].id {
          VoteKeepsOptions(polls[i], user, pending[pollId], a);
        }
      }
    }
  }

  /** Submitting the same choice again changes nothing. */
  lemma VoteIdempotent(p: Poll, user: string, selected: string)
    ensures VotePoll(VotePoll(p, user, selected), user, selected) == VotePoll(p, user, selected)
  {
    var q := VotePoll(p, user, selected);
    var qq := VotePoll(q, user, selected);
    forall j | 0 <= j < |p.options| ensures qq.options[j] == q.options[j] {
      var kept := Seqs.RemoveAll(p.options[j].votes, user);
      Seqs.RemoveAllIdempotent(p.options[j].votes, user);
      if p.options[j].id == selected {
        Seqs.RemoveAllAppendSelf(kept, user);
      }
    }
  }

  /** Selecting and submitting the same option a second time hands back the same collection. */
  lemma SubmitTwiceSameAsOnce(polls: seq<Poll>, pending: Pending, pollId: string, user: string)
    requires PendingChoice(pending, pollId).Some?
    ensures var first := SubmitVote(polls, pending, pollId, user);
      var again := SubmitVote(first.polls.value, Select(first.pending, pollId, pending[pollId]), pollId, user);
      again.polls == first.polls
  {
    var selected := pending[pollId];
    var first := SubmitVote(polls, pending, pollId, user).polls.value;
    var reselected := Select(pending - {pollId}, pollId, selected);
    assert PendingChoice(reselected, pollId) == Some(selected);
    var again := SubmitVote(first, reselected, pollId, user).polls.value;
    forall i | 0 <= i < |polls| ensures again[i] == first[i] {
      assert first[i].id == polls[i].id;
      if polls[i].id == pollId {
        VoteIdempotent(polls[i], user, selected);
      }
    }
    assert again == first;
  }

  /** `opt => opt.votes.length` summed over the options (the `reduce`). */
  function TotalVotes(options: seq<PollOption>): nat {
    if options == [] then 0 else |options[0].votes| + TotalVotes(options[1..])
  }

  /** Totals add up over a split of the options. */
  lemma {:induction false} TotalVotesAppend(a: seq<PollOption>, b: seq<PollOption>)
    ensures TotalVotes(a + b) == TotalVotes(a) + TotalVotes(b)
  {
    if a == [] {
      assert a + b == b;
    } else {
      assert (a + b)[1..] == a[1..] + b;
      TotalVotesAppend(a[1..], b);
    }
  }

  /** No option has more votes than the total, and the total is zero exactly when every option is empty. */
  lemma {:induction false} TotalVotesBounds(options: seq<PollOption>, j: int)
    requires 0 <= j < |options|
    ensures |options[j].votes| <= TotalVotes(options)
    ensures TotalVotes(options) == 0 ==> options[j].votes == []
  {
    if j > 0 {
      TotalVotesBounds(options[1..], j - 1);
    }
  }

  /** `Math.round(voteCount / totalVotes * 100)`, or 0 when there are no votes, in integer arithmetic. */
  function Percentage(votes: nat, total: nat): (r: nat)
    ensures total == 0 ==> r == 0
    ensures total > 0 ==> (r as real) - 0.5 <= (100 * votes) as real / total as real < (r as real) + 0.5
    ensures votes <= total ==> r <= 100
  {
    if total == 0 then 0
    else
      var r := (200 * votes + total) / (2 * total);
      RoundingBounds(votes, total, r);
      r
  }

  /** The integer quotient is the nearest whole percentage, halves rounding up as `Math.round` does. */
  lemma RoundingBounds(votes: nat, total: nat, r: int)
    requires total > 0 && r == (200 * votes + total) / (2 * total)
    ensures (r as real) - 0.5 <= (100 * votes) as real / total as real < (r as real) + 0.5
    ensures votes <= total ==> r <= 100
  {
    QuotientBounds(200 * votes + total, total, r);
    MulCast(r, total);
    var t, v, q := total as real, votes as real, r as real;
    assert 2.0 * (q * t) <= 200.0 * v + t < 2.0 * (q * t) + 2.0 * t;
    assert (q - 0.5) * t <= 100.0 * v by {
      assert (q - 0.5) * t == q * t - 0.5 * t;
    }
    assert 100.0 * v < (q + 0.5) * t by {
      assert (q + 0.5) * t == q * t + 0.5 * t;
    }
    ScaleDown(q - 0.5, 100.0 * v, t);
    ScaleUp(q + 0.5, 100.0 * v, t);
    AtMostHundred(votes, total, r);
  }

  /** A share of at most the whole rounds to at most 100. */
  lemma AtMostHundred(votes: nat, total: nat, r: int)
    requires total > 0 && 2 * (r * total) <= 200 * votes + total
    ensures votes <= total ==> r <= 100
  {
    MulAbove(r, total);
  }

  lemma MulAbove(r: int, t: nat)
    ensures r >= 101 ==> r * t >= 101 * t
  {
  }

  /** The floor quotient of `n` by `2t`, stated with the product `r·t`. */
  lemma QuotientBounds(n: int, t: int, r: int)
    requires t > 0 && r == n / (2 * t)
    ensures 2 * (r * t) <= n < 2 * (r * t) + 2 * t
  {
    var d := 2 * t;
    assert d * r <= n < d * r + d;
    assert d * r == 2 * (r * t);
  }

  /** Conversion to `real` commutes with multiplication. */
  lemma {:induction false} MulCast(a: int, b: nat)
    ensures (a * b) as real == a as real * b as real
  {
    if b > 0 {
      MulCast(a, b - 1);
      assert a * b == a * (b - 1) + a;
      assert (a as real) * (b as real) == (a as real) * ((b - 1) as real) + a as real;
    }
  }

  lemma ScaleDown(a: real, b: real, t: real)
    requires t > 0.0 && a * t <= b
    ensures a <= b / t
  {
    var y := b / t;
    assert y * t == b;
    assert (a - y) * t <= 0.0;
  }

  lemma ScaleUp(a: real, b: real, t: real)
    requires t > 0.0 && b < a * t
    ensures b / t < a
  {
    var y := b / t;
    assert y * t == b;
    assert (y - a) * t < 0.0;
  }

  /** `poll.options.find(opt => opt.votes.includes(user))?.id`: the option the member has voted for. */
  function CurrentVoteOptionId(options: seq<PollOption>, user: string): (r: Option<string>)
    ensures r.None? <==> forall j :: 0 <= j < |options| ==> user !in options[j].votes
    ensures r.Some? ==>
      exists j :: 0 <= j < |options| && options[j].id == r.value && user in options[j].votes &&
                  forall k :: 0 <= k < j ==> user !in options[k].votes
  {
    if options == [] then None
    else if user in options[0].votes then Some(options[0].id)
    else
      var r := CurrentVoteOptionId(options[1..], user);
      if r.Some? then
        var tail := options[1..];
        var j :| 0 <= j < |tail| && tail[j].id == r.value && user in tail[j].votes &&
                 forall k :: 0 <= k < j ==> user !in tail[k].votes;
        assert options[j + 1] == tail[j];
        assert forall k :: 1 <= k < j + 1 ==> options[k] == tail[k - 1];
        r
      else r
  }

  /** `pendingOptionId || currentVoteOptionId`: the option drawn as selected. */
  function ActiveSelection(pending: Pending, p: Poll, user: string): Option<string> {
    match PendingChoice(pending, p.id)
    case Some(optionId) => Some(optionId)
    case None => CurrentVoteOptionId(p.options, user)
  }

  /** `isDirty`: a pending choice that differs from the recorded vote, which enables the submit button. */
  predicate IsDirty(pending: Pending, p: Poll, user: string) {
    PendingChoice(pending, p.id).Some? && PendingChoice(pending, p.id) != CurrentVoteOptionId(p.options, user)
  }

  /** With distinct option ids, after a vote for an existing option the screen shows that option as the member's vote and nothing is pending. */
  lemma SubmitShowsVote(p: Poll, pending: Pending, user: string, selected: string)
    requires DistinctOptionIds(p)
    requires exists j :: 0 <= j < |p.options| && p.options[j].id == selected
    ensures CurrentVoteOptionId(VotePoll(p, user, selected).options, user) == Some(selected)
    ensures !IsDirty(pending - {p.id}, VotePoll(p, user, selected), user)
    ensures ActiveSelection(pending - {p.id}, VotePoll(p, user, selected), user) == Some(selected)
  {
    var q := VotePoll(p, user, selected);
    var j :| 0 <= j < |p.options| && p.options[j].id == selected;
    VoteMembership(p, user, selected, j, user);
    var r := CurrentVoteOptionId(q.options, user);
    var k :| 0 <= k < |q.options| && q.options[k].id == r.value && user in q.options[k].votes;
    VoteMembership(p, user, selected, k, user);
  }

  /** `polls.filter(p => p.active).length`. */
  function ActiveCount(polls: seq<Poll>): (n: nat)
    ensures n <= |polls|
    ensures n == 0 <==> forall i :: 0 <= i < |polls| ==> !polls[i].active
  {
    if polls == [] then 0 else (if polls[0].active then 1 else 0) + ActiveCount(polls[1..])
  }

  /** The count is additive over concatenation, so each active poll counts once and each inactive one not at all. */
  lemma {:induction false} ActiveCountAppend(a: seq<Poll>, b: seq<Poll>)
    ensures ActiveCount(a + b) == ActiveCount(a) + ActiveCount(b)
  {
    if a == [] {
      assert a + b == b;
    } else {
      assert (a + b)[0] == a[0] && (a + b)[1..] == a[1..] + b;
      ActiveCountAppend(a[1..], b);
    }
  }

  /** A single poll counts one exactly when it is active. */
  lemma ActiveCountSingle(p: Poll)
    ensures ActiveCount([p]) == if p.active then 1 else 0
  {
    assert [p][1..] == [];
  }

  // ---------------- the editor ----------------

  /** The poll `handleAddPoll` builds; its three ids each read the clock, at `pollNow`, `firstNow` and `secondNow`. */
  function NewPoll(pollNow: nat, firstNow: nat, secondNow: nat): Poll {
    Poll("p_" + DecimalString(pollNow), "New Poll Question", [
      PollOption("o_" + DecimalString(firstNow) + "_1", "Option 1", "Description here...", []),
      PollOption("o_" + DecimalString(secondNow) + "_2", "Option 2", "Description here...", [])
    ], true)
  }

  /** `handleAddPoll`: an active poll with two empty options goes last; its option ids differ whatever the clock reads. */
  function AddPoll(polls: seq<Poll>, pollNow: nat, firstNow: nat, secondNow: nat): (r: seq<Poll>)
    ensures |r| == |polls| + 1 && r[..|polls|] == polls
    ensures var p := r[|polls|];
      && p.active && |p.options| == 2 && TotalVotes(p.options) == 0
      && SingleChoice(p) && DistinctOptionIds(p)
  {
    var p := NewPoll(pollNow, firstNow, secondNow);
    assert TotalVotes(p.options[1..][1..]) == 0;
    assert TotalVotes(p.options[1..]) == 0;
    assert p.options[0].id[|p.options[0].id| - 1] == '1';
    assert p.options[1].id[|p.options[1].id| - 1] == '2';
    polls + [p]
  }

  function PollId(p: Poll): string { p.id }

  function OptionId(o: PollOption): string { o.id }

  /** `handleDeletePoll`: on confirmation, every poll with the id goes and the rest keep their order. */
  function DeletePoll(polls: seq<Poll>, pollId: string, confirmed: bool): (r: seq<Poll>)
    ensures !confirmed ==> r == polls
    ensures confirmed ==> r == Records.RemoveById(polls, PollId, pollId)
  {
    if confirmed then Records.RemoveById(polls, PollId, pollId) else polls
  }

  /** A confirmed delete keeps exactly the polls with another id. */
  lemma DeletePollKeepsOthers(polls: seq<Poll>, pollId: string, p: Poll)
    ensures p in DeletePoll(polls, pollId, true) <==> p in polls && p.id != pollId
  {
    Records.RemoveMembership(polls, PollId, pollId, p);
  }

  /** Apply `f` to the polls with the id, keeping the others. */
  function UpdatePoll(polls: seq<Poll>, pollId: string, f: Poll -> Poll): (r: seq<Poll>)
    ensures |r| == |polls|
    ensures forall i :: 0 <= i < |polls| ==> r[i] == if polls[i].id == pollId then f(polls[i]) else polls[i]
  {
    seq(|polls|, i requires 0 <= i < |polls| => if polls[i].id == pollId then f(polls[i]) else polls[i])
  }

  /** `handleQuestionChange`. */
  function QuestionChange(polls: seq<Poll>, pollId: string, text: string): (r: seq<Poll>)
    ensures |r| == |polls|
    ensures forall i :: 0 <= i < |polls| ==>
      r[i].options == polls[i].options && r[i].id == polls[i].id && r[i].active == polls[i].active
    ensures forall i :: 0 <= i < |polls| ==> r[i].question == if polls[i].id == pollId then text else polls[i].question
  {
    UpdatePoll(polls, pollId, (p: Poll) => p.(question := text))
  }

  /** The two option texts the editor can change. */
  datatype Field = Title | Description

  function SetField(o: PollOption, optionId: string, field: Field, value: string): PollOption {
    if o.id != optionId then o
    else match field
      case Title => o.(title := value)
      case Description => o.(description := value)
  }

  /** `handleOptionChange`: one text field of the matching options of the matching polls. */
  function OptionChange(polls: seq<Poll>, pollId: string, optionId: string, field: Field, value: string): (r: seq<Poll>)
    ensures |r| == |polls|
    ensures forall i :: 0 <= i < |polls| ==> r[i].id == polls[i].id && |r[i].options| == |polls[i].options|
    ensures forall i :: 0 <= i < |polls| && polls[i].id != pollId ==> r[i] == polls[i]
    ensures forall i, j :: 0 <= i < |polls| && 0 <= j < |polls[i].options| ==>
      r[i].options[j].id == polls[i].options[j].id && r[i].options[j].votes == polls[i].options[j].votes
    ensures forall i :: 0 <= i < |polls| ==> r[i].question == polls[i].question && r[i].active == polls[i].active
    ensures forall i, j :: 0 <= i < |polls| && polls[i].id == pollId && 0 <= j < |polls[i].options| ==>
      r[i].options[j] == SetField(polls[i].options[j], optionId, field, value)
  {
    UpdatePoll(polls, pollId, (p: Poll) => p.(options := seq(|p.options|, j requires 0 <= j < |p.options| => SetField(p.options[j], optionId, field, value))))
  }

  function NewOption(now: nat): PollOption {
    PollOption("o_" + DecimalString(now), "New Option", "Description...", [])
  }

  /** `handleAddOption`: an empty option goes last in the matching polls. */
  function AddOption(polls: seq<Poll>, pollId: string, now: nat): (r: seq<Poll>)
    ensures |r| == |polls|
    ensures forall i :: 0 <= i < |polls| && polls[i].id != pollId ==> r[i] == polls[i]
    ensures forall i :: 0 <= i < |polls| && polls[i].id == pollId ==>
      r[i] == polls[i].(options := polls[i].options + [NewOption(now)]) && NewOption(now).votes == []
  {
    UpdatePoll(polls, pollId, (p: Poll) => p.(options := p.options + [NewOption(now)]))
  }

  /** `handleDeleteOption`: the options with the id leave the matching polls; nothing else changes. */
  function DeleteOption(polls: seq<Poll>, pollId: string, optionId: string): (r: seq<Poll>)
    ensures |r| == |polls|
    ensures forall i :: 0 <= i < |polls| && polls[i].id != pollId ==> r[i] == polls[i]
    ensures forall i :: 0 <= i < |polls| && polls[i].id == pollId ==>
      r[i] == polls[i].(options := Records.RemoveById(polls[i].options, OptionId, optionId))
  {
    UpdatePoll(polls, pollId, (p: Poll) => p.(options := Records.RemoveById(p.options, OptionId, optionId)))
  }

  /** Deleting an option keeps exactly the other options of that poll. */
  lemma DeleteOptionKeepsOthers(polls: seq<Poll>, pollId: string, optionId: string, i: int, o: PollOption)
    requires 0 <= i < |polls| && polls[i].id == pollId
    ensures o in DeleteOption(polls, pollId, optionId)[i].options <==> o in polls[i].options && o.id != optionId
  {
    Records.RemoveMembership(polls[i].options, OptionId, optionId, o);
  }

  /** No vote of `o` is in any option of `options`. */
  predicate DisjointFrom(o: PollOption, options: seq<PollOption>) {
    forall j, v :: 0 <= j < |options| && v in o.votes ==> v !in options[j].votes
  }

  /** Putting an option in front of disjoint options that share none of its votes keeps them disjoint. */
  lemma ConsDisjoint(o: PollOption, options: seq<PollOption>)
    requires VotesDisjoint(options) && DisjointFrom(o, options)
    ensures VotesDisjoint([o] + options)
  {
    var s := [o] + options;
    forall i, j, v | 0 <= i < |s| && 0 <= j < |s| && i != j && v in s[i].votes
      ensures v !in s[j].votes
    {
      if i > 0 && j > 0 {
        assert s[i] == options[i - 1] && s[j] == options[j - 1];
      } else if i == 0 {
        assert s[j] == options[j - 1];
      } else {
        assert s[i] == options[i - 1];
      }
    }
  }

  /** Removing options keeps the rest disjoint. */
  lemma {:induction false} DropKeepsDisjoint(options: seq<PollOption>, optionId: string)
    requires VotesDisjoint(options)
    ensures VotesDisjoint(Records.RemoveById(options, OptionId, optionId))
  {
    if options != [] {
      var o, rest := options[0], options[1..];
      assert VotesDisjoint(rest) by {
        forall i, j, v | 0 <= i < |rest| && 0 <= j < |rest| && i != j && v in rest[i].votes
          ensures v !in rest[j].votes
        {
          assert rest[i] == options[i + 1] && rest[j] == options[j + 1];
        }
      }
      DropKeepsDisjoint(rest, optionId);
      var kept := Records.RemoveById(rest, OptionId, optionId);
      if o.id != optionId {
        forall j, v | 0 <= j < |kept| && v in o.votes ensures v !in kept[j].votes {
          Records.RemoveMembership(rest, OptionId, optionId, kept[j]);
          var k :| 0 <= k < |rest| && rest[k] == kept[j];
          assert options[k + 1] == kept[j];
        }
        ConsDisjoint(o, kept);
      }
    }
  }

  /** Every editor action keeps single-choice voting in every poll (a new option or poll starts with no votes). */
  lemma EditsKeepSingleChoice(polls: seq<Poll>, pollId: string, optionId: string, field: Field, value: string,
                              now: nat, pollNow: nat, firstNow: nat, secondNow: nat, confirmed: bool, i: int)
    requires forall k :: 0 <= k < |polls| ==> SingleChoice(polls[k])
    requires 0 <= i < |polls|
    ensures SingleChoice(QuestionChange(polls, pollId, value)[i])
    ensures SingleChoice(OptionChange(polls, pollId, optionId, field, value)[i])
    ensures SingleChoice(AddOption(polls, pollId, now)[i])
    ensures SingleChoice(DeleteOption(polls, pollId, optionId)[i])
    ensures var kept := DeletePoll(polls, pollId, confirmed); forall k :: 0 <= k < |kept| ==> SingleChoice(kept[k])
    ensures SingleChoice(AddPoll(polls, pollNow, firstNow, secondNow)[i])
    ensures SingleChoice(AddPoll(polls, pollNow, firstNow, secondNow)[|polls|])
  {
    var p := polls[i];
    if p.id == pollId {
      var added := AddOption(polls, pollId, now)[i];
      forall a, b, v | 0 <= a < |added.options| && 0 <= b < |added.options| && a != b && v in added.options[a].votes
        ensures v !in added.options[b].votes
      {
        if a < |p.options| && b < |p.options| {
          assert added.options[a] == p.options[a] && added.options[b] == p.options[b];
        } else if a < |p.options| {
          assert added.options[b].votes == [];
        }
      }
      DropKeepsDisjoint(p.options, optionId);
    }
    var _ := AddPoll(polls, pollNow, firstNow, secondNow);
    if confirmed {
      var kept := DeletePoll(polls, pollId, confirmed);
      forall k | 0 <= k < |kept| ensures SingleChoice(kept[k]) {
        DeletePollKeepsOthers(polls, pollId, kept[k]);
      }
    }
  }

  /**
   * Every editor action keeps option ids distinct in every poll, which the vote
   * relies on (it adds the member to every option with the chosen id). Adding an
   * option keeps them distinct when the clock gives an id the poll does not use.
   */
  lemma EditsKeepDistinctOptionIds(polls: seq<Poll>, pollId: string, optionId: string, field: Field, value: string,
                                   now: nat, pollNow: nat, firstNow: nat, secondNow: nat, confirmed: bool, i: int)
    requires forall k :: 0 <= k < |polls| ==> DistinctOptionIds(polls[k])
    requires 0 <= i < |polls|
    ensures DistinctOptionIds(QuestionChange(polls, pollId, value)[i])
    ensures DistinctOptionIds(OptionChange(polls, pollId, optionId, field, value)[i])
    ensures DistinctOptionIds(DeleteOption(polls, pollId, optionId)[i])
    ensures var kept := DeletePoll(polls, pollId, confirmed); forall k :: 0 <= k < |kept| ==> DistinctOptionIds(kept[k])
    ensures (forall o :: o in polls[i].options ==> o.id != NewOption(now).id) ==>
      DistinctOptionIds(AddOption(polls, pollId, now)[i])
    ensures DistinctOptionIds(AddPoll(polls, pollNow, firstNow, secondNow)[i])
    ensures DistinctOptionIds(AddPoll(polls, pollNow, firstNow, secondNow)[|polls|])
  {
    var p := polls[i];
    if p.id == pollId {
      assert Records.DistinctIds(p.options, OptionId);
      Records.RemoveKeepsDistinct(p.options, OptionId, optionId);
      if forall o :: o in p.options ==> o.id != NewOption(now).id {
        var added := AddOption(polls, pollId, now)[i];
        forall a, b | 0 <= a < b < |added.options| ensures added.options[a].id != added.options[b].id {
          assert added.options[a] == p.options[a];
          if b < |p.options| {
            assert added.options[b] == p.options[b];
          }
        }
      }
    }
    var _ := AddPoll(polls, pollNow, firstNow, secondNow);
    if confirmed {
      var kept := DeletePoll(polls, pollId, confirmed);
      forall k | 0 <= k < |kept| ensures DistinctOptionIds(kept[k]) {
        DeletePollKeepsOthers(polls, pollId, kept[k]);
      }
    }
  }
}
