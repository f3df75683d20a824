/** Players and the players collection stored in `players.json`. */
module Player {
  import opened Wrappers
  import opened Utils
  import opened Arguments

  /** The number of positional arguments that describe a player: its name. */
  const PLAYER_FIELD_COUNT: nat := 1

  /** The file, under the save directory, that holds the players collection. */
  const FILE_NAME_DATA := "players.json"

  /** A player has exactly one field, its name. */
  datatype Player = Player(name: string)

  /** `Player::from_name`: any string is accepted, the empty one included. */
  function FromName(name: string): (p: Player)
    ensures GetName(p) == name
  {
    Player(name)
  }

  /** `Player::get_name`. */
  function GetName(p: Player): string {
    p.name
  }

  function AlreadyExistsMessage(name: string): string {
    "Player " + name + " already exists."
  }

  function NotFoundMessage(name: string): string {
    "Player " + name + " not found."
  }

  /** The serialized shape of `Players`: a map from player name to player. */
  type PlayerMap = map<string, Player>

  /**
   * What `Players::add_player` does to the collection: a player whose name is
   * already a key is refused, otherwise it is inserted under its name.
   */
  function WithPlayer(players: PlayerMap, p: Player): (r: Result<PlayerMap>)
    ensures r.Err? <==> p.name in players
    ensures r.Err? ==> r.error == AlreadyExistsMessage(p.name)
    ensures r.Ok? ==> r.value.Keys == players.Keys + {p.name} && r.value[p.name] == p
                      && forall n :: n in players ==> r.value[n] == players[n]
  {
    if p.name in players then Err(AlreadyExistsMessage(p.name)) else Ok(players[p.name := p])
  }

  /**
   * What `Players::remove_player` does: the player is looked up by name; an
   * absent name is refused, otherwise that entry is removed.
   */
  function WithoutPlayer(players: PlayerMap, p: Player): (r: Result<PlayerMap>)
    ensures r.Err? <==> p.name !in players
    ensures r.Err? ==> r.error == NotFoundMessage(p.name)
    ensures r.Ok? ==> r.value.Keys == players.Keys - {p.name}
                      && forall n :: n in r.value ==> r.value[n] == players[n]
  {
    if p.name !in players then Err(NotFoundMessage(p.name)) else Ok(players - {p.name})
  }

  /** Where the players file is: `players.json` under `--save-dir`, or under the working directory. */
  function PlayersPath(optionalArgs: map<string, string>, cwd: Option<Path>): (r: Result<Path>)
    ensures SAVE_DIR_OPTIONAL_ARGUMENT in optionalArgs ==>
      r == Ok([optionalArgs[SAVE_DIR_OPTIONAL_ARGUMENT], FILE_NAME_DATA])
    ensures SAVE_DIR_OPTIONAL_ARGUMENT !in optionalArgs ==>
      (r.Err? <==> cwd.None?) && (r.Ok? ==> r.value == cwd.value + [FILE_NAME_DATA])
  {
    CreatePath(FILE_NAME_DATA, Lookup(optionalArgs, SAVE_DIR_OPTIONAL_ARGUMENT), cwd)
  }

  /** Adding a new player and then removing it gives back the collection it started from. */
  lemma AddThenRemove(players: PlayerMap, p: Player)
    requires p.name !in players
    ensures WithPlayer(players, p).Ok?
    ensures WithoutPlayer(WithPlayer(players, p).value, p) == Ok(players)
  {
    var added := WithPlayer(players, p).value;
    assert added - {p.name} == players;
  }

  /** Removing a player and adding it back restores the collection when the stored entry was that player. */
  lemma RemoveThenAdd(players: PlayerMap, p: Player)
    requires p.name in players && players[p.name] == p
    ensures WithoutPlayer(players, p).Ok?
    ensures WithPlayer(WithoutPlayer(players, p).value, p) == Ok(players)
  {
    var removed := WithoutPlayer(players, p).value;
    assert removed[p.name := p] == players;
  }

  /**
   * `Players`, updated in place by `add_player` and `remove_player`. The body
   * of these methods is not part of this model; their contracts are the
   * outcomes the command-line tests observe.
   */
  class Players {
    var players: PlayerMap

    /** `Players::from_players`. */
    constructor FromPlayers(players: PlayerMap)
      ensures this.players == players
    {
      this.players := players;
    }

    /** `Players::add_player`: a duplicate name fails and leaves the collection as it was. */
    method AddPlayer(p: Player) returns (r: Outcome)
      modifies this
      ensures r.Fail? <==> p.name in old(players)
      ensures r.Fail? ==> r.error == AlreadyExistsMessage(p.name) && players == old(players)
      ensures r.Pass? ==> Ok(players) == WithPlayer(old(players), p)
    {
      var added := WithPlayer(players, p);
      if added.Err? {
        return Fail(added.error);
      }
      players := added.value;
      return Pass;
    }

    /** `Players::remove_player`: an absent name fails and leaves the collection as it was. */
    method RemovePlayer(p: Player) returns (r: Outcome)
      modifies this
      ensures r.Fail? <==> p.name !in old(players)
      ensures r.Fail? ==> r.error == NotFoundMessage(p.name) && players == old(players)
      ensures r.Pass? ==> Ok(players) == WithoutPlayer(old(players), p)
    {
      var removed := WithoutPlayer(players, p);
      if removed.Err? {
        return Fail(removed.error);
      }
      players := removed.value;
      return Pass;
    }
  }
}
