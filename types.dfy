/** The record types of the club application: members, trips with their comments and links, polls with their options. */
module Types {
  import opened Wrappers

  datatype Role = AdminRole | MemberRole

  /** A club member; `password` and `role` are optional because older stored data lacks them. */
  datatype Member = Member(
    id: string,
    name: string,
    password: Option<string>,
    role: Option<Role>,
    avatarUrl: string,
    bikeModel: string,
    bikeImageUrl: string,
    address: string,
    lat: real,
    lng: real)

  /** One chat message on a trip; `memberId` is a member's id or the assistant's reserved id. */
  datatype Comment = Comment(id: string, memberId: string, text: string, timestamp: int, imageUrl: Option<string>)

  datatype TripStatus = Upcoming | Past

  datatype Platform = Relive | Calimoto | Strava | GoogleMaps

  datatype ExternalLink = ExternalLink(platform: Platform, url: string)

  datatype Trip = Trip(
    id: string,
    title: string,
    date: string,
    status: TripStatus,
    description: string,
    aiBriefing: Option<string>,
    distanceKm: real,
    startLocation: string,
    endLocation: string,
    coverImage: string,
    routeMapUrl: Option<string>,
    gpxFile: Option<string>,
    gpxFileName: Option<string>,
    externalLinks: Option<seq<ExternalLink>>,
    gallery: Option<seq<string>>,
    comments: seq<Comment>,
    participants: Option<seq<string>>)

  /** A poll choice; `votes` lists the ids of the members who picked it. */
  datatype PollOption = PollOption(id: string, title: string, description: string, votes: seq<string>)

  datatype Poll = Poll(id: string, question: string, options: seq<PollOption>, active: bool)

  /** The reserved id of the club administrator. */
  const AdminId := "admin"

  /** The reserved member id under which the chat assistant's replies are stored. */
  const AssistantId := "ai"

  /** `user?.role === 'admin'`: the member may see the admin tab and delete trips. */
  predicate IsAdmin(m: Member) {
    m.role == Some(AdminRole)
  }

  /** No member id is in the vote lists of two different options. */
  predicate VotesDisjoint(options: seq<PollOption>) {
    forall i, j, v :: 0 <= i < |options| && 0 <= j < |options| && i != j && v in options[i].votes
      ==> v !in options[j].votes
  }

  /** Single-choice voting: a member has voted for at most one option of the poll. */
  predicate SingleChoice(p: Poll) {
    VotesDisjoint(p.options)
  }

  /** No two options of the poll share an id. */
  predicate DistinctOptionIds(p: Poll) {
    forall i, j :: 0 <= i < j < |p.options| ==> p.options[i].id != p.options[j].id
  }

  function MemberId(m: Member): string { m.id }

  function TripId(t: Trip): string { t.id }
}
