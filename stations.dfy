/** The stations service: creating a station (with the mode parameters its
    mode needs), listing the public ones, editing, deleting, and joining and
    leaving. */
module Stations {

  import opened Common
  import opened Crypto
  import opened Store
  import opened Ordering

  const FreeflowNeeds := "Para o modo Freeflow, é necessário definir o máximo de músicas e a % de votos."
  const BackstageNeeds := "Para o modo Backstage, é necessário definir o número de reviews para postar."
  const EditDenied := "Acesso negado. Apenas admins ou moderadores podem editar a estação."
  const DeleteDenied := "Acesso negado. Apenas o criador pode deletar a estação."
  const AlreadyMember := "Você já é um membro desta estação."
  const PasswordRequired := "Esta estação é privada. Uma senha é necessária."
  const WrongPassword := "Senha da estação incorreta."
  const Joined := "Você entrou na estação com sucesso."
  const NotMember := "Você não é membro desta estação."
  const LastAdmin := "Você é o último administrador e não pode sair. Promova outro membro a administrador antes de sair."
  const Left := "Você saiu da estação com sucesso."

  datatype Mode = Freeflow | Backstage | Tour

  /** The fields of a create request. */
  datatype CreateStation = CreateStation(
    name: string,
    description: Option<string>,
    password: Option<string>,
    mode: Mode,
    maxSongsPerUserPerSet: Option<int>,
    votingThresholdPercent: Option<int>,
    reviewsNeededToPost: Option<int>)

  /** The request validator's bounds: a cap of at least one song, a
      threshold between 1 and 100 per cent, at least one review. */
  predicate WellFormed(dto: CreateStation)
  {
    && (dto.maxSongsPerUserPerSet.Some? ==> dto.maxSongsPerUserPerSet.value >= 1)
    && (dto.votingThresholdPercent.Some? ==> 1 <= dto.votingThresholdPercent.value <= 100)
    && (dto.reviewsNeededToPost.Some? ==> dto.reviewsNeededToPost.value >= 1)
  }

  /** A number the service treats as given: present and not zero. */
  predicate Given(n: Option<int>)
  {
    n.Some? && n.value != 0
  }

  /** A password the service treats as given: present and not empty. */
  predicate GivenText(s: Option<string>)
  {
    s.Some? && s.value != ""
  }

  /** The mode check of `create`: FREEFLOW needs a cap and a threshold,
      BACKSTAGE the number of reviews, TOUR nothing. */
  function ModeError(dto: CreateStation): (r: Option<Exception>)
    ensures r.None? <==>
              match dto.mode
              case Freeflow => Given(dto.maxSongsPerUserPerSet) && Given(dto.votingThresholdPercent)
              case Backstage => Given(dto.reviewsNeededToPost)
              case Tour => true
    ensures r.Some? ==> dto.mode != Tour
    ensures r.Some? && dto.mode == Freeflow ==> r.value == BadRequest(FreeflowNeeds)
    ensures r.Some? && dto.mode == Backstage ==> r.value == BadRequest(BackstageNeeds)
  {
    match dto.mode
    case Freeflow =>
      if !Given(dto.maxSongsPerUserPerSet) || !Given(dto.votingThresholdPercent)
      then Some(BadRequest(FreeflowNeeds)) else None
    case Backstage =>
      if !Given(dto.reviewsNeededToPost) then Some(BadRequest(BackstageNeeds)) else None
    case Tour => None
  }

  /** For a request within the validator's bounds, the check only asks
      that the parameters be present. */
  lemma ModeErrorMeansMissing(dto: CreateStation)
    requires WellFormed(dto)
    ensures ModeError(dto).None? <==>
              && (dto.mode == Freeflow ==> dto.maxSongsPerUserPerSet.Some? && dto.votingThresholdPercent.Some?)
              && (dto.mode == Backstage ==> dto.reviewsNeededToPost.Some?)
  {
  }

  /** The values the schema gives the columns `create` does not write. */
  datatype ColumnDefaults = ColumnDefaults(
    maxSongsPerUserPerSet: Option<int>,
    votingThresholdPercent: Option<int>,
    reviewsNeededToPost: Option<int>,
    ratingSystem: string,
    reviewSystem: string)

  /** The station row `create` inserts: name, description, password hash and
      creator come from the request; every mode parameter is the column's
      default, whatever the request said. */
  function NewStation(dto: CreateStation, id: StationId, creatorId: UserId, salt: nat,
                      defaults: ColumnDefaults, nowMs: int): (s: Station)
    ensures s.id == id && s.name == dto.name && s.description == dto.description && s.creatorId == creatorId
    ensures s.passwordHash.Some? <==> GivenText(dto.password)
    ensures s.passwordHash.Some? ==> forall p :: Compare(p, s.passwordHash.value) <==> p == dto.password.value
    ensures s.maxSongsPerUserPerSet == defaults.maxSongsPerUserPerSet
    ensures s.votingThresholdPercent == defaults.votingThresholdPercent
    ensures s.reviewsNeededToPost == defaults.reviewsNeededToPost
    ensures s.ratingSystem == defaults.ratingSystem && s.reviewSystem == defaults.reviewSystem
    ensures s.createdAt == nowMs
  {
    var passwordHash := if GivenText(dto.password) then Some(Hash(dto.password.value, salt)) else None;
    Station(id, dto.name, dto.description, passwordHash, creatorId,
            defaults.maxSongsPerUserPerSet, defaults.votingThresholdPercent, defaults.reviewsNeededToPost,
            defaults.ratingSystem, defaults.reviewSystem, nowMs)
  }

  /** `create`: after the mode check, one transaction stores the station and
      makes its creator its ADMIN. No set is opened. */
  method Create(db: Db, dto: CreateStation, creatorId: UserId, newId: StationId, salt: nat,
                defaults: ColumnDefaults, nowMs: int)
    returns (r: Result<Station>)
    requires db.Valid() && WellFormed(dto) && newId !in db.stations && (creatorId, newId) !in db.members
    modifies db`stations, db`members
    ensures db.Valid()
    ensures ModeError(dto).Some? ==>
              r == Err(ModeError(dto).value) && db.stations == old(db.stations) && db.members == old(db.members)
    ensures ModeError(dto).None? ==>
              && r == Ok(NewStation(dto, newId, creatorId, salt, defaults, nowMs))
              && db.stations == old(db.stations)[newId := r.value]
              && db.members == old(db.members)[(creatorId, newId) := Membership(creatorId, newId, Admin, nowMs)]
              && AdminCount(db.members, newId) == AdminCount(old(db.members), newId) + 1
  {
    var invalid := ModeError(dto);
    if invalid.Some? {
      return Err(invalid.value);
    }
    var station := NewStation(dto, newId, creatorId, salt, defaults, nowMs);
    AdminCountAfterInsert(db.members, Membership(creatorId, newId, Admin, nowMs));
    db.stations := db.stations[newId := station];
    db.members := db.members[(creatorId, newId) := Membership(creatorId, newId, Admin, nowMs)];
    r := Ok(station);
  }

  // ------------------------------------------------------------------ findAll

  function NewestFirst(a: Station, b: Station): bool
  {
    a.createdAt >= b.createdAt
  }

  /** The keys of the stations without a password. */
  function PublicIds(stations: map<StationId, Station>): set<StationId>
  {
    set k | k in stations && stations[k].passwordHash.None?
  }

  ghost function PublicStations(stations: map<StationId, Station>): set<Station>
  {
    set s | s in stations.Values && s.passwordHash.None?
  }

  /** Distinct keys hold distinct rows, so there is one public row per
      public key. */
  lemma PublicCount(stations: map<StationId, Station>)
    requires StationsValid(stations)
    ensures |PublicStations(stations)| == |PublicIds(stations)|
  {
    var keys := PublicIds(stations);
    var rows := PublicStations(stations);
    var f := k requires k in stations => stations[k];
    forall v | v in rows ensures exists k | k in keys :: f.requires(k) && f(k) == v {
      var k :| k in stations && stations[k] == v;
      assert k in keys;
    }
    forall a, b | a in keys && b in keys && f(a) == f(b) ensures a == b {
      assert stations[a].id == a && stations[b].id == b;
    }
    ImageCount(keys, rows, f);
  }

  /** `findAll`: exactly the stations without a password, each once, newest
      first. */
  ghost function FindAll(stations: map<StationId, Station>): (r: seq<Station>)
    requires StationsValid(stations)
    ensures Sorted(r, NewestFirst)
    ensures forall s :: s in r <==> s in stations.Values && s.passwordHash.None?
    ensures |r| == |PublicIds(stations)|
  {
    PublicCount(stations);
    Listing(PublicStations(stations), NewestFirst)
  }

  // ------------------------------------------------------------------- update

  /** The editable columns of a station; an absent field is left as it is. */
  datatype StationPatch = StationPatch(
    name: Option<string>,
    description: Option<Option<string>>,
    maxSongsPerUserPerSet: Option<Option<int>>,
    votingThresholdPercent: Option<Option<int>>,
    reviewsNeededToPost: Option<Option<int>>)

  /** The row after an update: the given fields replaced, and never the id,
      the creator, the password hash, the review flags or the creation time. */
  function Applied(s: Station, patch: StationPatch): (t: Station)
    ensures t.id == s.id && t.creatorId == s.creatorId && t.passwordHash == s.passwordHash
    ensures t.ratingSystem == s.ratingSystem && t.reviewSystem == s.reviewSystem && t.createdAt == s.createdAt
    ensures t.name == Patched(s.name, patch.name)
    ensures t.description == Patched(s.description, patch.description)
    ensures t.maxSongsPerUserPerSet == Patched(s.maxSongsPerUserPerSet, patch.maxSongsPerUserPerSet)
    ensures t.votingThresholdPercent == Patched(s.votingThresholdPercent, patch.votingThresholdPercent)
    ensures t.reviewsNeededToPost == Patched(s.reviewsNeededToPost, patch.reviewsNeededToPost)
  {
    s.(name := Patched(s.name, patch.name),
       description := Patched(s.description, patch.description),
       maxSongsPerUserPerSet := Patched(s.maxSongsPerUserPerSet, patch.maxSongsPerUserPerSet),
       votingThresholdPercent := Patched(s.votingThresholdPercent, patch.votingThresholdPercent),
       reviewsNeededToPost := Patched(s.reviewsNeededToPost, patch.reviewsNeededToPost))
  }

  /** An empty patch changes nothing. */
  lemma EmptyPatchIsIdentity(s: Station)
    ensures Applied(s, StationPatch(None, None, None, None, None)) == s
  {
  }

  /** `update`: the caller's membership is looked up first (a missing one is
      the store's not-found error), a plain MEMBER is refused, and only an
      ADMIN or MODERATOR gets the row updated. */
  method Update(db: Db, id: StationId, patch: StationPatch, userId: UserId) returns (r: Result<Station>)
    requires db.Valid()
    modifies db`stations
    ensures db.Valid()
    ensures (userId, id) !in db.members ==> r == Err(RowNotFound) && db.stations == old(db.stations)
    ensures (userId, id) in db.members && db.members[(userId, id)].role == Member ==>
              r == Err(Forbidden(EditDenied)) && db.stations == old(db.stations)
    ensures (userId, id) in db.members && db.members[(userId, id)].role != Member && id !in old(db.stations) ==>
              r == Err(RowNotFound) && db.stations == old(db.stations)
    ensures r.Ok? <==>
              && (userId, id) in db.members && db.members[(userId, id)].role in {Admin, Moderator}
              && id in old(db.stations)
    ensures r.Ok? ==>
              && id in old(db.stations)
              && r.value == Applied(old(db.stations)[id], patch)
              && db.stations == old(db.stations)[id := r.value]
  {
    if (userId, id) !in db.members {
      return Err(RowNotFound);
    }
    var membership := db.members[(userId, id)];
    if membership.role != Admin && membership.role != Moderator {
      return Err(Forbidden(EditDenied));
    }
    if id !in db.stations {
      return Err(RowNotFound);
    }
    var updated := Applied(db.stations[id], patch);
    db.stations := db.stations[id := updated];
    r := Ok(updated);
  }

  // ------------------------------------------------------------------- remove

  /** `remove`: only the station's creator may delete it. */
  method Remove(db: Db, id: StationId, userId: UserId) returns (r: Result<Station>)
    requires db.Valid()
    modifies db`stations
    ensures db.Valid()
    ensures id !in old(db.stations) ==> r == Err(RowNotFound) && db.stations == old(db.stations)
    ensures id in old(db.stations) && old(db.stations)[id].creatorId != userId ==>
              r == Err(Forbidden(DeleteDenied)) && db.stations == old(db.stations)
    ensures id in old(db.stations) && old(db.stations)[id].creatorId == userId ==>
              r == Ok(old(db.stations)[id]) && db.stations == old(db.stations) - {id}
  {
    if id !in db.stations {
      return Err(RowNotFound);
    }
    var station := db.stations[id];
    if station.creatorId != userId {
      return Err(Forbidden(DeleteDenied));
    }
    db.stations := db.stations - {id};
    r := Ok(station);
  }

  // --------------------------------------------------------------------- join

  /** `join`: the station must exist; then, in this order, an existing member
      is refused, a private station needs a password, and the password must
      match. A newcomer joins as MEMBER. */
  method Join(db: Db, stationId: StationId, userId: UserId, password: Option<string>, nowMs: int)
    returns (r: Result<string>)
    requires db.Valid()
    modifies db`members
    ensures db.Valid()
    ensures r.Err? ==> db.members == old(db.members)
    ensures stationId !in db.stations ==> r == Err(RowNotFound)
    ensures stationId in db.stations && (userId, stationId) in old(db.members) ==>
              r == Err(Conflict(AlreadyMember))
    ensures stationId in db.stations && (userId, stationId) !in old(db.members)
            && db.stations[stationId].passwordHash.Some? && !GivenText(password) ==>
              r == Err(BadRequest(PasswordRequired))
    ensures stationId in db.stations && (userId, stationId) !in old(db.members)
            && db.stations[stationId].passwordHash.Some? && GivenText(password)
            && !Compare(password.value, db.stations[stationId].passwordHash.value) ==>
              r == Err(Unauthorized(WrongPassword))
    ensures r.Ok? <==>
              && stationId in db.stations && (userId, stationId) !in old(db.members)
              && (db.stations[stationId].passwordHash.Some? ==>
                    GivenText(password) && Compare(password.value, db.stations[stationId].passwordHash.value))
    ensures r.Ok? ==>
              && r.value == Joined
              && db.members == old(db.members)[(userId, stationId) := Membership(userId, stationId, Member, nowMs)]
              && AdminCount(db.members, stationId) == AdminCount(old(db.members), stationId)
  {
    if stationId !in db.stations {
      return Err(RowNotFound);
    }
    var station := db.stations[stationId];
    if (userId, stationId) in db.members {
      return Err(Conflict(AlreadyMember));
    }
    if station.passwordHash.Some? {
      if !GivenText(password) {
        return Err(BadRequest(PasswordRequired));
      }
      if !Compare(password.value, station.passwordHash.value) {
        return Err(Unauthorized(WrongPassword));
      }
    }
    var membership := Membership(userId, stationId, Member, nowMs);
    AdminCountAfterInsert(db.members, membership);
    db.members := db.members[(userId, stationId) := membership];
    r := Ok(Joined);
  }

  // -------------------------------------------------------------------- leave

  /** The station's administrators. */
  function AdminCount(members: map<(UserId, StationId), Membership>, stationId: StationId): nat
  {
    |set k | k in members && k.1 == stationId && members[k].role == Admin|
  }

  /** Adding a membership row counts once more exactly when it is a new
      administrator of that station. */
  lemma {:induction false} AdminCountAfterInsert(members: map<(UserId, StationId), Membership>, m: Membership)
    requires (m.userId, m.stationId) !in members
    ensures forall stationId ::
              AdminCount(members[(m.userId, m.stationId) := m], stationId)
              == AdminCount(members, stationId) + (if m.stationId == stationId && m.role == Admin then 1 else 0)
  {
    var key := (m.userId, m.stationId);
    var after := members[key := m];
    forall stationId
      ensures AdminCount(after, stationId)
              == AdminCount(members, stationId) + (if m.stationId == stationId && m.role == Admin then 1 else 0)
    {
      var before := set k | k in members && k.1 == stationId && members[k].role == Admin;
      var now := set k | k in after && k.1 == stationId && after[k].role == Admin;
      if m.stationId == stationId && m.role == Admin {
        assert now == before + {key};
      } else {
        assert now == before;
      }
    }
  }

  /** Removing a membership row counts once less exactly when it was an
      administrator of that station. */
  lemma {:induction false} AdminCountAfterRemove(members: map<(UserId, StationId), Membership>,
                                                 key: (UserId, StationId), stationId: StationId)
    requires key in members
    ensures AdminCount(members - {key}, stationId)
            == AdminCount(members, stationId) - (if key.1 == stationId && members[key].role == Admin then 1 else 0)
  {
    var after := members - {key};
    var before := set k | k in members && k.1 == stationId && members[k].role == Admin;
    var now := set k | k in after && k.1 == stationId && after[k].role == Admin;
    if key.1 == stationId && members[key].role == Admin {
      assert before == now + {key};
    } else {
      assert now == before;
    }
  }

  /** `leave`: a non-member is told so; an ADMIN may leave only while
      another ADMIN remains; anyone else always leaves. So a station with an
      administrator keeps one. */
  method Leave(db: Db, stationId: StationId, userId: UserId) returns (r: Result<string>)
    requires db.Valid()
    modifies db`members
    ensures db.Valid()
    ensures (userId, stationId) !in old(db.members) ==>
              r == Err(NotFound(NotMember)) && db.members == old(db.members)
    ensures (userId, stationId) in old(db.members) && old(db.members)[(userId, stationId)].role == Admin
            && AdminCount(old(db.members), stationId) <= 1 ==>
              r == Err(Forbidden(LastAdmin)) && db.members == old(db.members)
    ensures (userId, stationId) in old(db.members) && old(db.members)[(userId, stationId)].role != Admin ==>
              r == Ok(Left)
    ensures r.Ok? <==>
              && (userId, stationId) in old(db.members)
              && (old(db.members)[(userId, stationId)].role != Admin || AdminCount(old(db.members), stationId) >= 2)
    ensures r.Ok? ==>
              && r.value == Left
              && (userId, stationId) in old(db.members)
              && db.members == old(db.members) - {(userId, stationId)}
              && (AdminCount(old(db.members), stationId) >= 1 ==> AdminCount(db.members, stationId) >= 1)
  {
    if (userId, stationId) !in db.members {
      return Err(NotFound(NotMember));
    }
    var membership := db.members[(userId, stationId)];
    if membership.role == Admin {
      var adminCount := AdminCount(db.members, stationId);
      if adminCount <= 1 {
        return Err(Forbidden(LastAdmin));
      }
    }
    AdminCountAfterRemove(db.members, (userId, stationId), stationId);
    db.members := db.members - {(userId, stationId)};
    r := Ok(Left);
  }
}
