/** The seed collections the store falls back to: six members, three trips and one poll. */
module Constants {
  import opened Wrappers
  import opened Types

  const Members: seq<Member> := [
    Member("admin", "Club Admin", Some("admin123"), Some(AdminRole),
      "https://cdn-icons-png.flaticon.com/512/9703/9703596.png", "Harley-Davidson CVO",
      "https://picsum.photos/seed/adminbike/400/300", "Clubhouse HQ", 41.9794, 2.8214),
    Member("m1", "Jax", Some("1234"), None,
      "https://picsum.photos/seed/jax/150/150", "Harley-Davidson Dyna",
      "https://picsum.photos/seed/harley1/400/300", "123 Redwood Hwy, Charming, CA", 38.0, -121.0),
    Member("m2", "Chibs", Some("1234"), None,
      "https://picsum.photos/seed/chibs/150/150", "Triumph Tiger 1200",
      "https://picsum.photos/seed/triumph/400/300", "45 Glasgow Ln, Belfast, ME", 44.4, -69.0),
    Member("m3", "Tig", Some("1234"), None,
      "https://picsum.photos/seed/tig/150/150", "Ducati Multistrada",
      "https://picsum.photos/seed/ducati/400/300", "88 Speed St, Oakland, CA", 37.8, -122.2),
    Member("m4", "Opie", Some("1234"), None,
      "https://picsum.photos/seed/opie/150/150", "Indian Chief",
      "https://picsum.photos/seed/indian/400/300", "99 Pine Rd, Lodi, CA", 38.1, -121.2),
    Member("m5", "Bobby", Some("1234"), None,
      "https://picsum.photos/seed/bobby/150/150", "Honda Goldwing",
      "https://picsum.photos/seed/honda/400/300", "505 Elvis Blvd, Memphis, TN", 35.1, -90.0)
  ]

  /** The seed's upcoming trip; `loadedAt` is the `Date.now()` at which the module was evaluated, which dates its two comments. */
  function CoastalRun(loadedAt: int): Trip {
    Trip("t_next", "Coastal Highway Run", "2023-11-15T09:00:00", Upcoming,
      "A scenic ride down Highway 1. Breakfast at Alice's Restaurant before heading towards the coast.",
      None, 240.0, "Clubhouse HQ", "Big Sur Point", "https://picsum.photos/seed/hwy1/800/400",
      None, None, None, None, None,
      [ Comment("c1", "m2", "Does everyone have their rain gear?", loadedAt - 1000000, None),
        Comment("c2", "m1", "Forecast looks clear, brother.", loadedAt - 500000, None) ],
      Some(["m1", "m2", "m4"]))
  }

  const MountainPass: Trip :=
    Trip("t_past_1", "Mountain Pass Loop", "2023-10-01T08:30:00", Past,
      "Twisty roads through the Sierra foothills. Challenging but rewarding.",
      None, 310.0, "Folsom", "Lake Tahoe", "https://picsum.photos/seed/mountain/800/400",
      None, None, None,
      Some([ExternalLink(Relive, "#"), ExternalLink(Calimoto, "#")]),
      Some(["https://picsum.photos/seed/g1/400/300", "https://picsum.photos/seed/g2/400/300",
            "https://picsum.photos/seed/g3/400/300"]),
      [], Some(["m1", "m2", "m3", "m4", "m5"]))

  const DesertNight: Trip :=
    Trip("t_past_2", "Desert Night Ride", "2023-09-12T18:00:00", Past,
      "Cool air night ride through the high desert.",
      None, 150.0, "Victorville", "Barstow", "https://picsum.photos/seed/desert/800/400",
      None, None, None,
      Some([ExternalLink(GoogleMaps, "#")]),
      Some(["https://picsum.photos/seed/g4/400/300", "https://picsum.photos/seed/g5/400/300"]),
      [], Some(["m1", "m3"]))

  /** The seed trips: one upcoming run and two past ones. */
  function MockTrips(loadedAt: int): seq<Trip> {
    seq(3, i => SeedTrip(i, loadedAt))
  }

  /** The seed trip at position `i` of `MockTrips`. */
  function SeedTrip(i: int, loadedAt: int): Trip {
    if i == 0 then CoastalRun(loadedAt) else if i == 1 then MountainPass else DesertNight
  }

  const InitialPolls: seq<Poll> := [NextMission]

  /** The one seed poll, open, on the next destination. */
  const NextMission: Poll :=
    Poll("p1", "Where is our next mission?", [
      PollOption("o1", "Tossa de Mar Loop",
        "Beautiful coastal curves with a lunch stop at the castle. Can be busy with tourists.", ["m1", "m2"]),
      PollOption("o2", "Montseny Mountain Pass",
        "Technical twisties, cooler temperatures, and lush forest views. For the spirited riders.", ["m3"]),
      PollOption("o3", "Girona Old Town Dash",
        "Relaxed highway cruise with a coffee stop in the square. Good for all skill levels.", ["m4", "m5"])
    ], true)

  /** The member ids of the seed, in order. */
  function MemberIds(ms: seq<Member>): (ids: seq<string>)
    ensures |ids| == |ms| && forall i :: 0 <= i < |ms| ==> ids[i] == ms[i].id
  {
    if ms == [] then [] else [ms[0].id] + MemberIds(ms[1..])
  }

  /** The seed holds exactly one record with the admin id, at index 0, and it has the admin role. */
  lemma SeedAdminUnique()
    ensures forall i :: 0 <= i < |Members| ==> (Members[i].id == AdminId <==> i == 0)
    ensures IsAdmin(Members[0])
  {
  }

  /** No two seed members share an id. */
  lemma SeedIdsDistinct()
    ensures forall i, j :: 0 <= i < j < |Members| ==> Members[i].id != Members[j].id
  {
  }

  /** The seed poll satisfies single-choice voting and its option ids are distinct. */
  lemma SeedPollsSingleChoice()
    ensures forall k :: 0 <= k < |InitialPolls| ==> SingleChoice(InitialPolls[k]) && DistinctOptionIds(InitialPolls[k])
  {
    var opts := InitialPolls[0].options;
    assert opts[0].votes == ["m1", "m2"] && opts[1].votes == ["m3"] && opts[2].votes == ["m4", "m5"];
  }

  /** The first seed trip is the only upcoming one; the other two are past. */
  lemma SeedOneUpcoming(loadedAt: int)
    ensures forall i :: 0 <= i < |MockTrips(loadedAt)| ==> (MockTrips(loadedAt)[i].status == Upcoming <==> i == 0)
  {
  }

  /** Every participant and comment author of `t` is in `ids`. */
  predicate ReferencesOnly(t: Trip, ids: seq<string>) {
    && (forall p :: p in t.participants.GetOr([]) ==> p in ids)
    && (forall c :: c in t.comments ==> c.memberId in ids)
  }

  const SeedIdList := ["admin", "m1", "m2", "m3", "m4", "m5"]

  /** `SeedIdList` lists the ids of the seed members in order. */
  lemma SeedIdListIsMemberIds()
    ensures MemberIds(Members) == SeedIdList
  {
  }

  lemma FirstTripReferences(loadedAt: int)
    ensures ReferencesOnly(CoastalRun(loadedAt), SeedIdList)
  {
    var t := CoastalRun(loadedAt);
    assert t.participants.GetOr([]) == ["m1", "m2", "m4"];
    assert t.comments[0].memberId == "m2" && t.comments[1].memberId == "m1" && |t.comments| == 2;
  }

  lemma SecondTripReferences()
    ensures ReferencesOnly(MountainPass, SeedIdList)
  {
    var t := MountainPass;
    assert t.participants.GetOr([]) == ["m1", "m2", "m3", "m4", "m5"];
    assert t.comments == [];
  }

  lemma ThirdTripReferences()
    ensures ReferencesOnly(DesertNight, SeedIdList)
  {
    var t := DesertNight;
    assert t.participants.GetOr([]) == ["m1", "m3"];
    assert t.comments == [];
  }

  /** Every participant and comment author of a seed trip is a seed member (the ids of `Members` are `SeedIdList`). */
  lemma SeedReferencesMembers(loadedAt: int)
    ensures forall i :: 0 <= i < |MockTrips(loadedAt)| ==> ReferencesOnly(MockTrips(loadedAt)[i], SeedIdList)
  {
    FirstTripReferences(loadedAt);
    SecondTripReferences();
    ThirdTripReferences();
  }
}
