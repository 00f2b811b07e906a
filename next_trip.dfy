/**
 * The upcoming-ride screen: planning a new ride, joining and leaving it, the
 * ride chat with its `@ai` trigger, who a chat message is shown as, marking the
 * ride completed, when the route briefing is requested, and the edit form that
 * rebuilds the external links. Every `Date.now()` the source reads is a
 * parameter of its own: `now` for a new ride's id, `idNow` and `stampNow` for
 * the id and the timestamp of a message, `replyIdNow` and `replyStampNow` for
 * those of the assistant's answer. `isoNow` stands for
 * `new Date().toISOString()`, `reply` for the assistant's answer text and
 * `confirmed` for the answer to the confirmation dialog.
 */
module NextTrip {
  import opened Wrappers
  import opened Types
  import opened Strings
  import Seqs
  import Records
  import AppState

  /** `handleCreateNew`: the placeholder ride offered when nothing is planned. */
  function NewTrip(now: nat, isoNow: string): (t: Trip)
    ensures t.status == Upcoming && t.distanceKm == 0.0 && t.aiBriefing == None
    ensures t.comments == [] && t.gallery == Some([]) && t.externalLinks == Some([]) && t.participants == Some([])
    ensures t.id == "t_" + DecimalString(now) && t.date == isoNow
  {
    Trip("t_" + DecimalString(now), "New Adventure", isoNow, Upcoming, "Plan the details for the next run.",
      None, 0.0, "Clubhouse", "TBD", "https://picsum.photos/seed/newtrip/800/400",
      None, None, None, Some([]), Some([]), [], Some([]))
  }

  /** The first upcoming trip of a list that gains an upcoming trip at its end, after having none, is that trip. */
  lemma UpcomingAfterAppend(trips: seq<Trip>, t: Trip)
    requires AppState.UpcomingTrip(trips).None? && t.status == Upcoming
    ensures AppState.UpcomingTrip(trips + [t]) == Some(t)
  {
    var s := trips + [t];
    assert s[|trips|] == t;
    var r := AppState.UpcomingTrip(s);
    var k :| 0 <= k < |s| && s[k] == r.value && r.value.status == Upcoming
      && forall j :: 0 <= j < k ==> s[j].status != Upcoming;
  }

  /** A newly planned ride saved through the upsert becomes the upcoming ride shown, when none was planned and its id is new. */
  lemma CreatedTripBecomesUpcoming(trips: seq<Trip>, now: nat, isoNow: string)
    requires AppState.UpcomingTrip(trips).None?
    requires !Records.HasId(trips, TripId, NewTrip(now, isoNow).id)
    ensures AppState.UpcomingTrip(Records.Upsert(trips, TripId, NewTrip(now, isoNow))) == Some(NewTrip(now, isoNow))
  {
    var t := NewTrip(now, isoNow);
    Records.UpsertEffect(trips, TripId, t);
    UpcomingAfterAppend(trips, t);
  }

  /** `trip.participants || []`. */
  function Participants(trip: Trip): seq<string> {
    trip.participants.GetOr([])
  }

  /** `isJoined`. */
  predicate Joined(trip: Trip, userId: string) {
    userId in Participants(trip)
  }

  /** `handleToggleJoin`: leaving drops every occurrence of the member, joining appends the member once. */
  function ToggleJoin(trip: Trip, userId: string): (r: Trip)
    ensures r.participants.Some?
    ensures Joined(trip, userId) ==> r.participants.value == Seqs.RemoveAll(Participants(trip), userId)
    ensures !Joined(trip, userId) ==> r.participants.value == Participants(trip) + [userId]
    ensures r == trip.(participants := r.participants)
  {
    var ps := Participants(trip);
    trip.(participants := Some(if userId in ps then Seqs.RemoveAll(ps, userId) else ps + [userId]))
  }

  /** Each toggle flips whether the member is in, and leaves every other member's entries and their order alone. */
  lemma ToggleFlips(trip: Trip, userId: string)
    ensures Joined(ToggleJoin(trip, userId), userId) == !Joined(trip, userId)
    ensures Seqs.RemoveAll(Participants(ToggleJoin(trip, userId)), userId) == Seqs.RemoveAll(Participants(trip), userId)
  {
    var ps := Participants(trip);
    if userId in ps {
      Seqs.RemoveAllIdempotent(ps, userId);
    } else {
      Seqs.RemoveAllAppendSelf(ps, userId);
    }
  }

  /** Joining and then leaving restores the participant list (a missing list comes back as the empty one). */
  lemma ToggleTwiceRestores(trip: Trip, userId: string)
    requires !Joined(trip, userId)
    ensures ToggleJoin(ToggleJoin(trip, userId), userId) == trip.(participants := Some(Participants(trip)))
  {
    var ps := Participants(trip);
    Seqs.RemoveAllAppendSelf(ps, userId);
    Seqs.RemoveAllAbsent(ps, userId);
    assert userId in ps + [userId];
  }

  /** The comment a member posts: the id from one clock reading, the timestamp from the next, the text as typed. */
  function UserComment(userId: string, text: string, idNow: nat, stampNow: nat): Comment {
    Comment(DecimalString(idNow), userId, text, stampNow, None)
  }

  /** The chat's send: a text that is blank once trimmed is ignored, anything else is appended untrimmed. */
  function PostMessage(trip: Trip, userId: string, text: string, idNow: nat, stampNow: nat): (r: Option<Trip>)
    ensures r.None? <==> IsBlank(text)
    ensures r.Some? ==> r.value == trip.(comments := r.value.comments)
    ensures r.Some? ==> |r.value.comments| == |trip.comments| + 1 && r.value.comments[..|trip.comments|] == trip.comments
    ensures r.Some? ==> var c := r.value.comments[|trip.comments|];
      c.memberId == userId && c.text == text && c.timestamp == stampNow && c.id == DecimalString(idNow)
  {
    if IsBlank(text) then None else Some(trip.(comments := trip.comments + [UserComment(userId, text, idNow, stampNow)]))
  }

  /** `message.text.toLowerCase().includes('@ai')`. */
  predicate MentionsAssistant(text: string) {
    Contains(ToLower(text), "@ai")
  }

  /** The assistant's answer as stored in the chat: the id and the timestamp read the clock separately. */
  function AssistantAnswer(reply: string, replyIdNow: nat, replyStampNow: nat): Comment {
    Comment("ai_" + DecimalString(replyIdNow), AssistantId, reply, replyStampNow + 100, None)
  }

  /** Message ids come from the clock: two member messages share an id exactly when their id readings agree, and no member message shares an id with an answer. */
  lemma ChatIdsFromClock(userId: string, text: string, idNow: nat, stampNow: nat,
                         userId': string, text': string, idNow': nat, stampNow': nat,
                         reply: string, replyIdNow: nat, replyStampNow: nat)
    ensures UserComment(userId, text, idNow, stampNow).id == UserComment(userId', text', idNow', stampNow').id <==> idNow == idNow'
    ensures UserComment(userId, text, idNow, stampNow).id != AssistantAnswer(reply, replyIdNow, replyStampNow).id
  {
    DecimalStringInjective(idNow, idNow');
    var d := DecimalString(idNow);
    assert '0' <= d[0] <= '9';
    assert AssistantAnswer(reply, replyIdNow, replyStampNow).id[0] == 'a';
  }

  /** The two updates `handleSendMessage` may hand to `onUpdateTrip`: nothing, the trip with the message, and possibly the trip with the message and the assistant's answer. */
  datatype Sent = Ignored | Posted(withMessage: Trip, withReply: Option<Trip>)

  /** `handleSendMessage` on the upcoming ride: the second update is the first one with the answer appended, and only `@ai` asks for it. */
  function SendMessage(trip: Trip, userId: string, text: string, idNow: nat, stampNow: nat,
                       reply: string, replyIdNow: nat, replyStampNow: nat): (r: Sent)
    ensures r.Ignored? <==> IsBlank(text)
    ensures r.Posted? ==> Some(r.withMessage) == PostMessage(trip, userId, text, idNow, stampNow)
    ensures r.Posted? ==> (r.withReply.Some? <==> MentionsAssistant(text))
    ensures r.Posted? && r.withReply.Some? ==>
      r.withReply.value == r.withMessage.(comments := r.withMessage.comments + [AssistantAnswer(reply, replyIdNow, replyStampNow)])
  {
    match PostMessage(trip, userId, text, idNow, stampNow)
    case None => Ignored
    case Some(posted) =>
      Posted(posted, if MentionsAssistant(text) then Some(posted.(comments := posted.comments + [AssistantAnswer(reply, replyIdNow, replyStampNow)])) else None)
  }

  /** With an answer, the chat ends in the member's message and then the assistant's, both after the earlier comments. */
  lemma AnswerFollowsMessage(trip: Trip, userId: string, text: string, idNow: nat, stampNow: nat,
                             reply: string, replyIdNow: nat, replyStampNow: nat)
    requires !IsBlank(text) && MentionsAssistant(text)
    ensures var r := SendMessage(trip, userId, text, idNow, stampNow, reply, replyIdNow, replyStampNow).withReply.value;
      var n := |trip.comments|;
      && |r.comments| == n + 2 && r.comments[..n] == trip.comments
      && r.comments[n].memberId == userId && r.comments[n].text == text
      && r.comments[n + 1].memberId == AssistantId && r.comments[n + 1].text == reply
      && r.comments[n].timestamp == stampNow && r.comments[n + 1].timestamp == replyStampNow + 100
      && r.comments[n].id == DecimalString(idNow) && r.comments[n + 1].id == "ai_" + DecimalString(replyIdNow)
  {
    var posted := PostMessage(trip, userId, text, idNow, stampNow).value;
    assert (posted.comments + [AssistantAnswer(reply, replyIdNow, replyStampNow)])[..|trip.comments|] == posted.comments[..|trip.comments|];
  }

  /** Case does not matter for the trigger: `@AI`, `@Ai` and `@ai` all ask the assistant. */
  lemma TriggerIgnoresAsciiCase(text: string)
    ensures MentionsAssistant(text) <==> MentionsAssistant(ToLower(text))
  {
    assert ToLower(ToLower(text)) == ToLower(text);
  }

  /** A chat author: the assistant's fixed identity or a member. */
  datatype ChatAuthor = Assistant | MemberAuthor(member: Member)

  const AssistantName := "Road Captain AI"
  const AssistantAvatar := "https://cdn-icons-png.flaticon.com/512/4712/4712035.png"

  /** The chat's `getMember`: `'ai'` is the assistant; any other id is its member, or the first member when none has it; with no members at all there is nobody (`allMembers[0]` is undefined). */
  function Sender(id: string, allMembers: seq<Member>): (r: Option<ChatAuthor>)
    ensures id == AssistantId ==> r == Some(Assistant)
    ensures id != AssistantId && Records.HasId(allMembers, MemberId, id) ==>
      r.Some? && r.value.MemberAuthor? && r.value.member.id == id &&
      exists k :: 0 <= k < |allMembers| && allMembers[k] == r.value.member &&
                  forall j :: 0 <= j < k ==> allMembers[j].id != id
    ensures id != AssistantId && !Records.HasId(allMembers, MemberId, id) ==>
      r == if allMembers == [] then None else Some(MemberAuthor(allMembers[0]))
  {
    if id == AssistantId then Some(Assistant)
    else match Records.FindById(allMembers, MemberId, id)
      case Some(m) => Some(MemberAuthor(m))
      case None => if allMembers == [] then None else Some(MemberAuthor(allMembers[0]))
  }

  /** A message shown under a member other than its author happens only when the author is unknown and there are members. */
  lemma SenderMisattributes(id: string, allMembers: seq<Member>)
    requires id != AssistantId
    requires Sender(id, allMembers).Some? && Sender(id, allMembers).value.member.id != id
    ensures !Records.HasId(allMembers, MemberId, id) && allMembers != []
    ensures Sender(id, allMembers) == Some(MemberAuthor(allMembers[0]))
  {
  }

  /** `handleCompleteTrip`: on confirmation the ride becomes past and nothing else about it changes. */
  function CompleteTrip(trip: Trip, confirmed: bool): (r: Option<Trip>)
    ensures r.Some? <==> confirmed
    ensures r.Some? ==> r.value.status == Past && r.value.(status := trip.status) == trip
  {
    if confirmed then Some(trip.(status := Past)) else None
  }

  /** A completed ride saved back through the upsert is in the archive list. */
  lemma CompletedTripIsArchived(trips: seq<Trip>, trip: Trip, timeOf: string -> int)
    requires trip in trips
    ensures var done := CompleteTrip(trip, true).value;
      done in AppState.PastTrips(Records.Upsert(trips, TripId, done), timeOf)
  {
    var done := CompleteTrip(trip, true).value;
    var after := Records.Upsert(trips, TripId, done);
    var i :| 0 <= i < |trips| && trips[i] == trip;
    assert Records.HasId(trips, TripId, done.id) by {
      assert TripId(trips[i]) == done.id;
    }
    Records.UpsertEffect(trips, TripId, done);
    assert done in after;
    AppState.PastTripsArePastSorted(after, timeOf, done);
    assert done in multiset(after);
  }

  /** `!trip.aiBriefing`: no briefing, or an empty one. */
  predicate MissingBriefing(trip: Trip) {
    trip.aiBriefing.None? || trip.aiBriefing.value == ""
  }

  /** The effect's guard: a briefing is requested only when none is stored, none is loading and the ride has a distance. */
  predicate ShouldFetchBriefing(trip: Trip, loading: bool) {
    MissingBriefing(trip) && !loading && trip.distanceKm > 0.0
  }

  /** `{ ...trip, aiBriefing: text }`. */
  function WithBriefing(trip: Trip, text: string): (r: Trip)
    ensures r.aiBriefing == Some(text) && r.(aiBriefing := trip.aiBriefing) == trip
  {
    trip.(aiBriefing := Some(text))
  }

  /** Once a non-empty briefing is stored it is not requested again; a ride without distance never asks. */
  lemma BriefingFetchedOnce(trip: Trip, text: string, loading: bool)
    ensures text != "" ==> !ShouldFetchBriefing(WithBriefing(trip, text), loading)
    ensures trip.distanceKm <= 0.0 ==> !ShouldFetchBriefing(trip, loading)
    ensures ShouldFetchBriefing(trip, loading) ==> MissingBriefing(trip) && !loading
  {
  }

  /** `links?.find(l => l.platform === platform)?.url || ''`: the URL the edit form starts with. */
  function InitialLinkUrl(links: Option<seq<ExternalLink>>, platform: Platform): (url: string)
    ensures url != "" ==> exists l :: l in links.GetOr([]) && l.platform == platform && l.url == url
    ensures (forall l :: l in links.GetOr([]) ==> l.platform != platform) ==> url == ""
    ensures var ls := links.GetOr([]);
      forall k :: 0 <= k < |ls| && ls[k].platform == platform && (forall j :: 0 <= j < k ==> ls[j].platform != platform) ==>
        url == ls[k].url
  {
    var ls := links.GetOr([]);
    var k := FirstPlatform(ls, platform);
    if k < |ls| then ls[k].url else ""
  }

  /** The index of the first link for the platform, or the length when there is none. */
  function FirstPlatform(ls: seq<ExternalLink>, platform: Platform): (k: nat)
    ensures k <= |ls|
    ensures k < |ls| ==> ls[k].platform == platform
    ensures forall j :: 0 <= j < k ==> ls[j].platform != platform
  {
    if ls == [] then 0 else if ls[0].platform == platform then 0 else 1 + FirstPlatform(ls[1..], platform)
  }

  /** A link the form manages through its own two fields. */
  predicate Managed(l: ExternalLink) {
    l.platform == Relive || l.platform == Calimoto
  }

  /** `formData.externalLinks?.filter(l => l.platform !== 'Relive' && l.platform !== 'Calimoto') || []`. */
  function OtherLinks(links: Option<seq<ExternalLink>>): (r: seq<ExternalLink>)
    ensures forall l :: l in r <==> l in links.GetOr([]) && !Managed(l)
  {
    KeepUnmanaged(links.GetOr([]))
  }

  function KeepUnmanaged(ls: seq<ExternalLink>): (r: seq<ExternalLink>)
    ensures forall l :: l in r <==> l in ls && !Managed(l)
  {
    if ls == [] then [] else (if Managed(ls[0]) then [] else [ls[0]]) + KeepUnmanaged(ls[1..])
  }

  /** The link for a platform when its trimmed URL is not empty. */
  function LinkIfGiven(platform: Platform, url: string): (r: seq<ExternalLink>)
    ensures forall l :: l in r ==> l.platform == platform
  {
    if Trim(url) != "" then [ExternalLink(platform, Trim(url))] else []
  }

  /** The links the form saves: the unmanaged links in their order, then Relive, then Calimoto, each only when given. */
  function RebuiltLinks(links: Option<seq<ExternalLink>>, reliveUrl: string, calimotoUrl: string): seq<ExternalLink> {
    OtherLinks(links) + LinkIfGiven(Relive, reliveUrl) + LinkIfGiven(Calimoto, calimotoUrl)
  }

  /** `newLinks` built by pushing onto a copy of the unmanaged links. */
  method RebuildLinks(links: Option<seq<ExternalLink>>, reliveUrl: string, calimotoUrl: string)
    returns (newLinks: seq<ExternalLink>)
    ensures newLinks == RebuiltLinks(links, reliveUrl, calimotoUrl)
  {
    newLinks := OtherLinks(links);
    var relive := Trim(reliveUrl);
    if relive != "" {
      newLinks := newLinks + [ExternalLink(Relive, relive)];
    }
    var calimoto := Trim(calimotoUrl);
    if calimoto != "" {
      newLinks := newLinks + [ExternalLink(Calimoto, calimoto)];
    }
  }

  /** `EditTripForm.handleSubmit`: the edited fields with the rebuilt links. */
  method SubmitEdit(form: Trip, reliveUrl: string, calimotoUrl: string) returns (saved: Trip)
    ensures saved == form.(externalLinks := Some(RebuiltLinks(form.externalLinks, reliveUrl, calimotoUrl)))
  {
    var newLinks := RebuildLinks(form.externalLinks, reliveUrl, calimotoUrl);
    saved := form.(externalLinks := Some(newLinks));
  }

  /** The saved links hold at most one link per managed platform, and every unmanaged link survives. */
  lemma RebuiltLinksShape(links: Option<seq<ExternalLink>>, reliveUrl: string, calimotoUrl: string, l: ExternalLink)
    ensures var r := RebuiltLinks(links, reliveUrl, calimotoUrl);
      && (l in r && !Managed(l) <==> l in links.GetOr([]) && !Managed(l))
      && (l in r && l.platform == Relive <==> Trim(reliveUrl) != "" && l == ExternalLink(Relive, Trim(reliveUrl)))
      && (l in r && l.platform == Calimoto <==> Trim(calimotoUrl) != "" && l == ExternalLink(Calimoto, Trim(calimotoUrl)))
  {
  }

  /** Links of other platforms in front do not change which URL the form starts with. */
  lemma {:induction false} InitialSkips(a: seq<ExternalLink>, b: seq<ExternalLink>, platform: Platform)
    requires forall l :: l in a ==> l.platform != platform
    ensures InitialLinkUrl(Some(a + b), platform) == InitialLinkUrl(Some(b), platform)
  {
    FirstPlatformSkips(a, b, platform);
    var k := FirstPlatform(b, platform);
    if k < |b| {
      assert (a + b)[|a| + k] == b[k];
    }
  }

  lemma {:induction false} FirstPlatformSkips(a: seq<ExternalLink>, b: seq<ExternalLink>, platform: Platform)
    requires forall l :: l in a ==> l.platform != platform
    ensures FirstPlatform(a + b, platform) == |a| + FirstPlatform(b, platform)
  {
    if a == [] {
      assert a + b == b;
    } else {
      assert a[0] in a;
      assert (a + b)[0] == a[0] && (a + b)[1..] == a[1..] + b;
      FirstPlatformSkips(a[1..], b, platform);
    }
  }

  /** The URL shown for a platform when the given links hold only a link for it, or none. */
  lemma InitialOfGiven(platform: Platform, url: string, rest: seq<ExternalLink>)
    requires forall l :: l in rest ==> l.platform != platform
    ensures InitialLinkUrl(Some(LinkIfGiven(platform, url) + rest), platform) == Trim(url)
  {
    var given := LinkIfGiven(platform, url);
    if Trim(url) == "" {
      assert given + rest == rest;
    } else {
      assert (given + rest)[0] == ExternalLink(platform, Trim(url));
    }
  }

  /** Opening the form again on the saved trip shows the trimmed URLs that were entered. */
  lemma ReopenShowsTrimmedUrls(links: Option<seq<ExternalLink>>, reliveUrl: string, calimotoUrl: string)
    ensures InitialLinkUrl(Some(RebuiltLinks(links, reliveUrl, calimotoUrl)), Relive) == Trim(reliveUrl)
    ensures InitialLinkUrl(Some(RebuiltLinks(links, reliveUrl, calimotoUrl)), Calimoto) == Trim(calimotoUrl)
  {
    var others, lr, lc := OtherLinks(links), LinkIfGiven(Relive, reliveUrl), LinkIfGiven(Calimoto, calimotoUrl);
    ReopenRelive(others, lr, lc, reliveUrl);
    assert forall l :: l in others + lr ==> l in others || l in lr;
    ReopenCalimoto(others + lr, lc, calimotoUrl);
  }

  lemma ReopenRelive(others: seq<ExternalLink>, lr: seq<ExternalLink>, lc: seq<ExternalLink>, url: string)
    requires forall l :: l in others ==> !Managed(l)
    requires lr == LinkIfGiven(Relive, url) && forall l :: l in lc ==> l.platform == Calimoto
    ensures InitialLinkUrl(Some(others + lr + lc), Relive) == Trim(url)
  {
    assert others + lr + lc == others + (lr + lc);
    InitialSkips(others, lr + lc, Relive);
    InitialOfGiven(Relive, url, lc);
  }

  lemma ReopenCalimoto(front: seq<ExternalLink>, lc: seq<ExternalLink>, url: string)
    requires forall l :: l in front ==> l.platform != Calimoto
    requires lc == LinkIfGiven(Calimoto, url)
    ensures InitialLinkUrl(Some(front + lc), Calimoto) == Trim(url)
  {
    assert front + lc == front + (lc + []);
    InitialSkips(front, lc + [], Calimoto);
    InitialOfGiven(Calimoto, url, []);
  }

  /** Saving the form unchanged a second time keeps the links as they are. */
  lemma ResubmitKeepsLinks(links: Option<seq<ExternalLink>>, reliveUrl: string, calimotoUrl: string)
    ensures var r := RebuiltLinks(links, reliveUrl, calimotoUrl);
      RebuiltLinks(Some(r), InitialLinkUrl(Some(r), Relive), InitialLinkUrl(Some(r), Calimoto)) == r
  {
    ReopenShowsTrimmedUrls(links, reliveUrl, calimotoUrl);
    GivenTrimmed(Relive, reliveUrl);
    GivenTrimmed(Calimoto, calimotoUrl);
    OthersOfRebuilt(links, reliveUrl, calimotoUrl);
  }

  lemma GivenTrimmed(platform: Platform, url: string)
    ensures LinkIfGiven(platform, Trim(url)) == LinkIfGiven(platform, url)
  {
    TrimIdempotent(url);
  }

  /** The rebuilt links have the same unmanaged links as before. */
  lemma OthersOfRebuilt(links: Option<seq<ExternalLink>>, reliveUrl: string, calimotoUrl: string)
    ensures OtherLinks(Some(RebuiltLinks(links, reliveUrl, calimotoUrl))) == OtherLinks(links)
  {
    var others := OtherLinks(links);
    var given := LinkIfGiven(Relive, reliveUrl) + LinkIfGiven(Calimoto, calimotoUrl);
    assert RebuiltLinks(links, reliveUrl, calimotoUrl) == others + given;
    KeepUnmanagedAppend(others, given);
    KeepUnmanagedIdempotent(links.GetOr([]));
    NothingUnmanaged(given);
  }

  lemma {:induction false} NothingUnmanaged(ls: seq<ExternalLink>)
    requires forall l :: l in ls ==> Managed(l)
    ensures KeepUnmanaged(ls) == []
  {
    if ls != [] {
      assert ls[0] in ls;
      NothingUnmanaged(ls[1..]);
    }
  }

  lemma {:induction false} KeepUnmanagedAppend(a: seq<ExternalLink>, b: seq<ExternalLink>)
    ensures KeepUnmanaged(a + b) == KeepUnmanaged(a) + KeepUnmanaged(b)
  {
    if a == [] {
      assert a + b == b;
    } else {
      assert (a + b)[0] == a[0] && (a + b)[1..] == a[1..] + b;
      KeepUnmanagedAppend(a[1..], b);
    }
  }

  lemma {:induction false} KeepUnmanagedIdempotent(ls: seq<ExternalLink>)
    ensures KeepUnmanaged(KeepUnmanaged(ls)) == KeepUnmanaged(ls)
  {
    if ls != [] {
      KeepUnmanagedIdempotent(ls[1..]);
      var head := if Managed(ls[0]) then [] else [ls[0]];
      KeepUnmanagedAppend(head, KeepUnmanaged(ls[1..]));
    }
  }
}
