/** Lab 10, zad2: the connection table of the tic-tac-toe server.  Slots of a fixed array hold
    heap-allocated clients; paired clients point at each other's slot and share one game.  Pointers into
    the table are slot numbers, -1 stands for NULL.  Every send may fail. */
module Server {
  import opened TicTacToe

  datatype Status = Empty | Registered | Pinged

  class GameState {
    var turn: char
    var board: seq<char>
    var remaining: int

    ghost function View(): Game
      reads this
    {
      Game(turn, board, remaining)
    }

    constructor (first: char)
      ensures View() == NewGame(first)
    {
      turn, board, remaining := first, seq(9, _ => NO_MARK), 9;
    }

    method Update(moveId: int, symbol: char, opponent: char)
      requires IsBoard(View()) && 1 <= moveId <= 9
      modifies this
      ensures View() == Place(old(View()), moveId, symbol, opponent)
    {
      board := board[moveId - 1 := symbol];
      turn := opponent;
      remaining := remaining - 1;
    }
  }

  class Client {
    const nickname: string
    var symbol: char
    var opponent: int
    var game: GameState?

    constructor (nickname: string)
      ensures this.nickname == nickname && symbol == NO_MARK && opponent == -1 && game == null
    {
      this.nickname := nickname;
      symbol, opponent, game := NO_MARK, -1, null;
    }
  }

  /** A connection struct, kept by value in the table. */
  datatype Connection = Connection(fd: int, client: Client?, status: Status, addr: int)

  const NO_CONNECTION := Connection(-1, null, Empty, 0)

  const UNREGISTERED_NICKNAME := "unregistered"

  /** The answer to a registration.  For an accepted one: whether the client is still there when the
      handler returns, and whether the report of a failed start read the waiting slot when it was NULL,
      which ends the server. */
  datatype Registration = ServerFull | UsernameTaken | Accepted(ok: bool, crash: bool)

  // ---------------------------------------------------------------- the table as a value

  /** What a slot says about its client. */
  datatype Entry = Vacant | Taken(client: Client, symbol: char, opponent: int, game: GameState?)

  predicate Linked(v: seq<Entry>, i: nat)
    requires i < |v| && v[i].Taken?
  {
    var o := v[i].opponent;
    && 0 <= o < |v| && o != i && v[o].Taken?
    && v[o].opponent == i
    && v[o].game == v[i].game
    && v[o].symbol != v[i].symbol
  }

  /** Clients are in one slot each.  Those that play point at each other's slot, share a game that
      nobody else plays and have different symbols. */
  ghost predicate Links(v: seq<Entry>) {
    && (forall i, j :: 0 <= i < j < |v| && v[i].Taken? && v[j].Taken? ==> v[i].client != v[j].client)
    && (forall i :: 0 <= i < |v| && v[i].Taken? && v[i].opponent != -1 ==> Linked(v, i))
    && (forall i, j :: 0 <= i < |v| && 0 <= j < |v| && i != j && SameGame(v[i], v[j]) ==> v[i].opponent == j)
  }

  predicate SameGame(a: Entry, b: Entry) {
    && a.Taken? && b.Taken? && a.opponent != -1 && b.opponent != -1
    && a.game != null && a.game == b.game
  }

  function Removed(v: seq<Entry>, i: nat): seq<Entry>
    requires i < |v| && v[i].Taken?
  {
    if 0 <= v[i].opponent < |v| then v[i := Vacant][v[i].opponent := Vacant] else v[i := Vacant]
  }

  /** Only the two slots of the pair change, so the links of the others stand. */
  lemma RemovedKeepsLinks(v: seq<Entry>, i: nat)
    requires Links(v) && i < |v| && v[i].Taken?
    ensures -1 <= v[i].opponent < |v|
    ensures Links(Removed(v, i))
  {
    if v[i].opponent != -1 {
      assert Linked(v, i);
    }
    var w := Removed(v, i);
    forall k | 0 <= k < |v| && w[k].Taken? && w[k].opponent != -1
      ensures Linked(w, k)
    {
      assert Linked(v, k);
    }
  }

  /** The table between the two halves of a removal: slot i is cleared, its opponent plays with nobody. */
  function Detached(v: seq<Entry>, i: nat): seq<Entry>
    requires i < |v| && v[i].Taken? && 0 <= v[i].opponent < |v| && v[v[i].opponent].Taken?
  {
    v[i := Vacant][v[i].opponent := v[v[i].opponent].(opponent := -1)]
  }

  lemma DetachedKeepsLinks(v: seq<Entry>, i: nat)
    requires Links(v) && i < |v| && v[i].Taken? && v[i].opponent != -1
    ensures Linked(v, i) && Links(Detached(v, i)) && Removed(Detached(v, i), v[i].opponent) == Removed(v, i)
  {
    assert Linked(v, i);
    var w := Detached(v, i);
    forall k | 0 <= k < |v| && w[k].Taken? && w[k].opponent != -1
      ensures Linked(w, k)
    {
      assert Linked(v, k);
    }
    assert Removed(w, v[i].opponent) == Removed(v, i);
  }

  ghost function ClientsOf(v: seq<Entry>): set<Client> {
    set k | 0 <= k < |v| && v[k].Taken? :: v[k].client
  }

  /** The games being played. */
  ghost function GamesOf(v: seq<Entry>): set<GameState> {
    set k | 0 <= k < |v| && v[k].Taken? && v[k].opponent != -1 && v[k].game != null :: v[k].game
  }

  lemma DetachedClients(v: seq<Entry>, i: nat)
    requires Links(v) && i < |v| && v[i].Taken? && v[i].opponent != -1
    ensures Linked(v, i)
    ensures ClientsOf(Detached(v, i)) == ClientsOf(v) - {v[i].client}
    ensures GamesOf(Detached(v, i)) == GamesOf(v) - {v[i].game}
  {
    assert Linked(v, i);
    var w := Detached(v, i);
    assert forall k :: 0 <= k < |v| && k != i ==> w[k].Taken? == v[k].Taken?;
    forall k | 0 <= k < |v| && k != i && v[k].Taken?
      ensures w[k].client == v[k].client && w[k].client != v[i].client
    {
    }
    forall k | 0 <= k < |v| && k != i && k != v[i].opponent && v[k].Taken? && v[k].opponent != -1 && v[k].game != null
      ensures v[k].game != v[i].game
    {
      assert !SameGame(v[k], v[i]) || v[k].opponent == i;
      assert Linked(v, k);
    }
  }

  lemma VacatedClients(v: seq<Entry>, i: nat)
    requires Links(v) && i < |v| && v[i].Taken? && v[i].opponent == -1
    ensures ClientsOf(v[i := Vacant]) == ClientsOf(v) - {v[i].client}
    ensures GamesOf(v[i := Vacant]) == GamesOf(v)
  {
    var w := v[i := Vacant];
    assert forall k :: 0 <= k < |v| && k != i ==> w[k] == v[k];
  }

  function Occupied(v: seq<Entry>): set<nat> {
    set i: nat | i < |v| && v[i].Taken?
  }

  // ---------------------------------------------------------------- what holds between requests

  /** At most one client is unpaired, namely the one in the waiting slot; exactly those who play have
      a game. */
  ghost predicate WaitingOk(v: seq<Entry>, waiting: int) {
    && (waiting == -1 || (0 <= waiting < |v| && v[waiting].Taken?))
    && (forall i :: 0 <= i < |v| && v[i].Taken? ==>
                      (v[i].opponent == -1 <==> i == waiting) && (v[i].opponent == -1 <==> v[i].game == null))
  }

  ghost predicate NicknamesOk(v: seq<Entry>) {
    forall i, j :: 0 <= i < j < |v| && v[i].Taken? && v[j].Taken? ==> v[i].client.nickname != v[j].client.nickname
  }

  predicate NicknameFree(v: seq<Entry>, nickname: string) {
    forall k :: 0 <= k < |v| && v[k].Taken? ==> v[k].client.nickname != nickname
  }

  /** What holds between requests; the counter is the number of taken slots. */
  ghost predicate TableOk(v: seq<Entry>, waiting: int, count: int) {
    Links(v) && WaitingOk(v, waiting) && NicknamesOk(v) && count == |Occupied(v)|
  }

  lemma AllVacant(v: seq<Entry>)
    requires forall k :: 0 <= k < |v| ==> v[k].Vacant?
    ensures TableOk(v, -1, 0) && Occupied(v) == {} && ClientsOf(v) == {} && GamesOf(v) == {} && GamesOk(v)
  {
  }

  /** The slots that a removal of a slot clears: the slot and its opponent's, if there is one. */
  predicate InPair(i: int, opponent: int, k: int) {
    k == i || (opponent != -1 && k == opponent)
  }

  function PairSize(opponent: int): nat {
    if opponent == -1 then 1 else 2
  }

  /** The memory a removal frees. */
  ghost function ClientsFreed(v: seq<Entry>, i: nat): set<Client>
    requires i < |v| && v[i].Taken?
  {
    var o := v[i].opponent;
    if 0 <= o < |v| && v[o].Taken? then {v[i].client, v[o].client} else {v[i].client}
  }

  ghost function GamesFreed(v: seq<Entry>, i: nat): set<GameState>
    requires i < |v| && v[i].Taken?
  {
    if v[i].opponent != -1 && v[i].game != null then {v[i].game} else {}
  }

  lemma OneMoreOccupied(v: seq<Entry>, i: nat, e: Entry)
    requires i < |v| && v[i].Vacant? && e.Taken?
    ensures |Occupied(v[i := e])| == |Occupied(v)| + 1
  {
    assert Occupied(v[i := e]) == Occupied(v) + {i};
  }

  lemma OneLessOccupied(v: seq<Entry>, i: nat)
    requires i < |v| && v[i].Taken?
    ensures |Occupied(v[i := Vacant])| == |Occupied(v)| - 1
  {
    OneMoreOccupied(v[i := Vacant], i, v[i]);
    assert v[i := Vacant][i := v[i]] == v;
  }

  lemma RemovedCounts(v: seq<Entry>, i: nat)
    requires i < |v| && v[i].Taken? && (v[i].opponent != -1 ==> Linked(v, i))
    ensures |Occupied(Removed(v, i))| == |Occupied(v)| - PairSize(v[i].opponent)
  {
    var w := v[i := Vacant];
    OneLessOccupied(v, i);
    if v[i].opponent != -1 {
      OneLessOccupied(w, v[i].opponent);
    }
  }

  lemma RemovedWaits(v: seq<Entry>, waiting: int, i: nat)
    requires Links(v) && WaitingOk(v, waiting) && i < |v| && v[i].Taken? && (v[i].opponent != -1 ==> Linked(v, i))
    ensures WaitingOk(Removed(v, i), if waiting == i then -1 else waiting)
    ensures InPair(i, v[i].opponent, waiting) ==> waiting == i
  {
  }

  /** A removal turns a good table into a good table with one or two clients less. */
  lemma RemovedKeepsTable(v: seq<Entry>, waiting: int, count: int, i: nat)
    requires TableOk(v, waiting, count) && i < |v| && v[i].Taken?
    ensures -1 <= v[i].opponent < |v|
    ensures TableOk(Removed(v, i), if InPair(i, v[i].opponent, waiting) then -1 else waiting,
                    count - PairSize(v[i].opponent))
  {
    RemovedKeepsLinks(v, i);
    assert v[i].opponent != -1 ==> Linked(v, i);
    RemovedCounts(v, i);
    RemovedWaits(v, waiting, i);
  }

  /** A removal is the removal of the opponent alone after the detachment. */
  lemma RemovalInHalves(v: seq<Entry>, i: nat)
    requires Links(v) && i < |v| && v[i].Taken? && v[i].opponent != -1
    ensures Linked(v, i)
    ensures var o, w := v[i].opponent, Detached(v, i);
            && Links(w) && w[o].Taken? && w[o].opponent == -1
            && Removed(w, o) == Removed(v, i)
            && ClientsFreed(v, i) == {v[i].client} + ClientsFreed(w, o)
            && multiset(ClientsFreed(v, i)) == multiset(ClientsFreed(w, o)) + multiset{v[i].client}
            && v[i].client !in ClientsFreed(w, o)
            && GamesFreed(w, o) == {} && multiset(GamesFreed(w, o)) == multiset{}
            && ClientsOf(w) == ClientsOf(v) - {v[i].client} && GamesOf(w) == GamesOf(v) - {v[i].game}
  {
    DetachedKeepsLinks(v, i);
    DetachedClients(v, i);
    assert v[i].client != v[v[i].opponent].client;
  }

  lemma OwnClient(v: seq<Entry>, i: nat)
    requires i < |v| && v[i].Taken?
    ensures v[i].client in ClientsOf(v)
    ensures v[i].opponent == -1 ==> multiset(ClientsFreed(v, i)) == multiset{v[i].client} && GamesFreed(v, i) == {}
  {
  }

  lemma RemovedClients(v: seq<Entry>, i: nat)
    requires Links(v) && i < |v| && v[i].Taken? && (v[i].opponent != -1 ==> Linked(v, i))
    ensures ClientsOf(Removed(v, i)) == ClientsOf(v) - ClientsFreed(v, i)
    ensures GamesOf(Removed(v, i)) == GamesOf(v) - GamesFreed(v, i)
    ensures ClientsFreed(v, i) <= ClientsOf(v) && GamesFreed(v, i) <= GamesOf(v)
  {
    if v[i].opponent == -1 {
      VacatedClients(v, i);
    } else {
      var w := Detached(v, i);
      DetachedKeepsLinks(v, i);
      DetachedClients(v, i);
      VacatedClients(w, v[i].opponent);
    }
  }

  lemma FreedOnce<T>(freed: set<T>, more: set<T>)
    requires freed !! more
    ensures multiset(freed + more) == multiset(freed) + multiset(more)
  {
  }

  /** Whoever still plays after a removal plays with the same opponent as before. */
  lemma RemovedGames(v: seq<Entry>, i: nat, k: nat)
    requires Links(v) && i < |v| && v[i].Taken? && k < |v| && Removed(v, i)[k].Taken? && v[k].opponent != -1
    ensures Linked(v, k)
    ensures Removed(v, i)[k] == v[k] && Removed(v, i)[v[k].opponent] == v[v[k].opponent]
  {
    assert Linked(v, k);
    if v[i].opponent != -1 {
      assert Linked(v, i);
    }
  }

  /** A new client in slot i that waits. */
  lemma AddedKeepsLinks(v: seq<Entry>, i: nat, c: Client, symbol: char)
    requires Links(v) && i < |v| && v[i].Vacant? && c !in ClientsOf(v)
    ensures Links(v[i := Taken(c, symbol, -1, null)])
  {
    var w := v[i := Taken(c, symbol, -1, null)];
    forall k | 0 <= k < |v| && v[k].Taken?
      ensures v[k].client in ClientsOf(v)
    {
    }
    forall k | 0 <= k < |v| && w[k].Taken? && w[k].opponent != -1
      ensures Linked(w, k)
    {
      assert Linked(v, k);
    }
  }

  lemma AddedNicknames(v: seq<Entry>, i: nat, e: Entry)
    requires NicknamesOk(v) && i < |v| && v[i].Vacant? && e.Taken?
    requires NicknameFree(v, e.client.nickname)
    ensures NicknamesOk(v[i := e])
  {
  }

  lemma AddedKeepsTable(v: seq<Entry>, count: int, i: nat, c: Client, symbol: char)
    requires TableOk(v, -1, count) && i < |v| && v[i].Vacant? && c !in ClientsOf(v)
    requires NicknameFree(v, c.nickname)
    ensures TableOk(v[i := Taken(c, symbol, -1, null)], i, count + 1)
  {
    var w := v[i := Taken(c, symbol, -1, null)];
    assert Links(w) by {
      AddedKeepsLinks(v, i, c, symbol);
    }
    assert NicknamesOk(w) by {
      AddedNicknames(v, i, w[i]);
    }
    assert WaitingOk(w, i);
    OneMoreOccupied(v, i, w[i]);
  }

  /** A game between the owners of two symbols that is not over. */
  ghost predicate Between(g: Game, x: char, y: char) {
    (InProgress(g, x, y) || InProgress(g, y, x)) && g.remaining > 0
  }

  lemma MoveKeepsGame(g: Game, x: char, y: char, moveId: int)
    requires Between(g, x, y) && IsValidMove(g, moveId, x)
    ensures var g' := Place(g, moveId, x, y);
            GetGameResult(g', moveId).Playing? ==> Between(g', x, y) && Between(g', y, x)
  {
    if InProgress(g, x, y) {
      LastMoveDecides(g, x, y, moveId);
    } else {
      LastMoveDecides(g, y, x, moveId);
    }
  }

  /** Every game in the table is still going on, between the symbols of its two clients. */
  ghost predicate GamesOk(v: seq<Entry>)
    reads GamesOf(v)
  {
    forall i :: 0 <= i < |v| && v[i].Taken? && v[i].opponent != -1 && v[i].game != null && Linked(v, i) ==>
      Between(v[i].game.View(), v[i].symbol, v[v[i].opponent].symbol)
  }

  /** The games as they were before a move; only game i has changed since. */
  ghost predicate GamesWere(v: seq<Entry>, views: map<GameState, Game>) {
    forall i :: 0 <= i < |v| && v[i].Taken? && v[i].opponent != -1 && v[i].game != null && Linked(v, i) ==>
      && v[i].game in views
      && Between(views[v[i].game], v[i].symbol, v[v[i].opponent].symbol)
  }

  lemma StartedGamesOk(v: seq<Entry>, i: nat, c: Client, w: nat, si: char, sw: char, g: GameState)
    requires Links(v) && GamesOk(v) && i < |v| && v[i].Vacant? && w < |v| && v[w].Taken? && v[w].opponent == -1
    requires Between(g.View(), si, sw) && Between(g.View(), sw, si)
    ensures GamesOk(Paired(v, i, c, w, si, sw, g))
  {
    var p := Paired(v, i, c, w, si, sw, g);
    forall k | 0 <= k < |v| && p[k].Taken? && p[k].opponent != -1 && p[k].game != null && Linked(p, k)
      ensures Between(p[k].game.View(), p[k].symbol, p[p[k].opponent].symbol)
    {
      if k != i && k != w {
        assert Linked(v, k);
      }
    }
  }

  lemma WaitingGamesOk(v: seq<Entry>, i: nat, c: Client)
    requires Links(v) && GamesOk(v) && i < |v| && v[i].Vacant?
    ensures GamesOk(v[i := Taken(c, NO_MARK, -1, null)])
    ensures ClientsOf(v[i := Taken(c, NO_MARK, -1, null)]) == ClientsOf(v) + {c}
    ensures GamesOf(v[i := Taken(c, NO_MARK, -1, null)]) == GamesOf(v)
  {
    var w := v[i := Taken(c, NO_MARK, -1, null)];
    assert w[i].client == c;
    assert forall k :: 0 <= k < |v| && k != i ==> w[k] == v[k];
    forall k | 0 <= k < |v| && w[k].Taken? && w[k].opponent != -1
      ensures Linked(v, k)
    {
    }
  }

  lemma Snapshot(v: seq<Entry>) returns (views: map<GameState, Game>)
    requires GamesOk(v)
    ensures GamesWere(v, views)
    ensures forall g :: g in views ==> views[g] == g.View()
  {
    views := map g | g in GamesOf(v) :: g.View();
    forall i | 0 <= i < |v| && v[i].Taken? && v[i].opponent != -1 && v[i].game != null
      ensures v[i].game in GamesOf(v)
    {
    }
  }

  lemma GamesAfterMove(v: seq<Entry>, i: nat, views: map<GameState, Game>, moveId: int)
    requires GamesWere(v, views) && Links(v) && i < |v| && v[i].Taken? && v[i].opponent != -1 && Linked(v, i)
    requires v[i].game in views && IsBoard(views[v[i].game]) && IsValidMove(views[v[i].game], moveId, v[i].symbol)
    requires v[i].game.View() == Place(views[v[i].game], moveId, v[i].symbol, v[v[i].opponent].symbol)
    requires forall g :: g in views && g != v[i].game ==> g.View() == views[g]
    ensures GamesOk(Removed(v, i))
    ensures GetGameResult(v[i].game.View(), moveId).Playing? ==> GamesOk(v)
  {
    var w := Removed(v, i);
    forall k | 0 <= k < |v| && w[k].Taken? && w[k].opponent != -1 && w[k].game != null && Linked(w, k)
      ensures Between(w[k].game.View(), w[k].symbol, w[w[k].opponent].symbol)
    {
      RemovedGames(v, i, k);
      assert !SameGame(v[i], v[k]);
    }
    if GetGameResult(v[i].game.View(), moveId).Playing? {
      MoveKeepsGame(views[v[i].game], v[i].symbol, v[v[i].opponent].symbol, moveId);
      forall k | 0 <= k < |v| && v[k].Taken? && v[k].opponent != -1 && v[k].game != null && Linked(v, k)
        ensures Between(v[k].game.View(), v[k].symbol, v[v[k].opponent].symbol)
      {
        if v[k].game == v[i].game && k != i {
          assert SameGame(v[i], v[k]);
        }
      }
    }
  }

  lemma PlayersLinked(v: seq<Entry>, waiting: int, count: int, i: nat)
    requires TableOk(v, waiting, count) && i < |v| && v[i].Taken? && v[i].opponent != -1
    ensures Linked(v, i) && v[i].game != null && v[i].game in GamesOf(v)
  {
  }

  lemma RemovedKeepsGames(v: seq<Entry>, i: nat)
    requires Links(v) && i < |v| && v[i].Taken? && GamesOk(v)
    ensures GamesOk(Removed(v, i))
  {
    var w := Removed(v, i);
    forall k | 0 <= k < |v| && w[k].Taken? && w[k].opponent != -1 && w[k].game != null && Linked(w, k)
      ensures Between(w[k].game.View(), w[k].symbol, w[w[k].opponent].symbol)
    {
      RemovedGames(v, i, k);
    }
  }

  // ---------------------------------------------------------------- pairing

  /** The new client c in slot i and the waiting client in slot w become opponents. */
  function Paired(v: seq<Entry>, i: nat, c: Client, w: nat, si: char, sw: char, g: GameState?): seq<Entry>
    requires i < |v| && w < |v| && v[w].Taken?
  {
    v[i := Taken(c, si, w, g)][w := Taken(v[w].client, sw, i, g)]
  }

  lemma PairedKeepsLinks(v: seq<Entry>, i: nat, c: Client, w: nat, si: char, sw: char, g: GameState?)
    requires Links(v) && i < |v| && v[i].Vacant? && w < |v| && v[w].Taken? && v[w].opponent == -1
    requires c !in ClientsOf(v) && si != sw && (g != null ==> g !in GamesOf(v))
    ensures Links(Paired(v, i, c, w, si, sw, g))
  {
    var p := Paired(v, i, c, w, si, sw, g);
    forall k | 0 <= k < |v| && v[k].Taken?
      ensures v[k].client in ClientsOf(v)
      ensures v[k].opponent != -1 && v[k].game != null ==> v[k].game in GamesOf(v)
    {
    }
    forall k | 0 <= k < |v| && p[k].Taken? && p[k].opponent != -1
      ensures Linked(p, k)
    {
      PairedLinked(v, i, c, w, si, sw, g, k);
    }
  }

  lemma PairedLinked(v: seq<Entry>, i: nat, c: Client, w: nat, si: char, sw: char, g: GameState?, k: nat)
    requires Links(v) && i < |v| && v[i].Vacant? && w < |v| && v[w].Taken? && v[w].opponent == -1
    requires si != sw && k < |v| && (k == i || (v[k].Taken? && (k == w || v[k].opponent != -1)))
    ensures Linked(Paired(v, i, c, w, si, sw, g), k)
  {
    if k != i && k != w {
      assert Linked(v, k);
    }
  }

  lemma PairedClients(v: seq<Entry>, i: nat, c: Client, w: nat, si: char, sw: char, g: GameState?)
    requires i < |v| && v[i].Vacant? && w < |v| && v[w].Taken? && v[w].opponent == -1
    ensures ClientsOf(Paired(v, i, c, w, si, sw, g)) == ClientsOf(v) + {c}
    ensures GamesOf(Paired(v, i, c, w, si, sw, g)) == GamesOf(v) + (if g == null then {} else {g})
  {
    var p := Paired(v, i, c, w, si, sw, g);
    assert p[i].client == c && p[w].client == v[w].client;
    assert forall k :: 0 <= k < |v| && k != i && k != w ==> p[k] == v[k];
  }

  /** The table after client c was accepted into slot i: it waits, or has a game g with the client in slot
      `waiting`; if it cannot be told that it waits it is gone again, and if the two cannot be told that they
      play both are gone. */
  function Joined(v: seq<Entry>, waiting: int, i: nat, c: Client, coin: nat, ok: bool, g: GameState?): seq<Entry>
    requires i < |v| && coin < 2 && (waiting == -1 || (0 <= waiting < |v| && v[waiting].Taken?))
  {
    if waiting == -1 then
      if ok then v[i := Taken(c, NO_MARK, -1, null)] else v
    else if g != null then
      Paired(v, i, c, waiting, PLAYER_SYMBOLS[coin], PLAYER_SYMBOLS[1 - coin], g)
    else
      v[waiting := Vacant]
  }

  /** Who is in the table then: alone, the new client exactly when it was told that it waits; with somebody
      waiting, both of them, playing each other with different symbols, exactly when there is a game, and
      neither of them otherwise. */
  lemma WhoIsIn(v: seq<Entry>, waiting: int, i: nat, c: Client, coin: nat, ok: bool, g: GameState?)
    requires i < |v| && v[i].Vacant? && coin < 2
    requires waiting == -1 || (0 <= waiting < |v| && v[waiting].Taken? && v[waiting].opponent == -1)
    ensures var w := Joined(v, waiting, i, c, coin, ok, g);
            && |w| == |v| && (forall k :: 0 <= k < |v| && k != i && k != waiting ==> w[k] == v[k])
            && (w[i].Taken? ==> w[i].client == c)
            && if waiting == -1 then (w[i].Taken? <==> ok) && (ok ==> w[i].opponent == -1)
               else (w[i].Taken? <==> g != null) && (w[waiting].Taken? <==> g != null)
                    && (g != null ==>
                          && Linked(w, i) && w[i].opponent == waiting && w[i].game == g
                          && w[waiting].client == v[waiting].client && w[waiting].symbol != w[i].symbol
                          && w[i].symbol in PLAYER_SYMBOLS && w[waiting].symbol in PLAYER_SYMBOLS)
  {
    assert PLAYER_SYMBOLS[0] != PLAYER_SYMBOLS[1];
  }

  /** How many more clients there are then. */
  function JoinedCount(waiting: int, ok: bool, g: GameState?): int {
    if waiting == -1 then (if ok then 1 else 0) else if g != null then 1 else -1
  }

  /** A game that got started: nobody waits any more. */
  lemma StartedKeepsTable(v: seq<Entry>, count: int, i: nat, c: Client, w: nat, si: char, sw: char, g: GameState)
    requires TableOk(v, w, count) && i < |v| && v[i].Vacant? && w < |v|
    requires c !in ClientsOf(v) && si != sw && g !in GamesOf(v)
    requires NicknameFree(v, c.nickname)
    ensures TableOk(Paired(v, i, c, w, si, sw, g), -1, count + 1)
  {
    var p := Paired(v, i, c, w, si, sw, g);
    assert Links(p) by {
      PairedKeepsLinks(v, i, c, w, si, sw, g);
    }
    assert NicknamesOk(p) by {
      PairedNicknames(v, i, c, w, si, sw, g);
    }
    assert |Occupied(p)| == count + 1 by {
      OneMoreOccupied(v, i, p[i]);
      assert Occupied(p) == Occupied(v[i := p[i]]);
    }
  }

  lemma PairedNicknames(v: seq<Entry>, i: nat, c: Client, w: nat, si: char, sw: char, g: GameState?)
    requires NicknamesOk(v) && i < |v| && v[i].Vacant? && w < |v| && v[w].Taken?
    requires NicknameFree(v, c.nickname)
    ensures NicknamesOk(Paired(v, i, c, w, si, sw, g))
  {
  }

  /** A game that could not be started: the waiting client goes, and the new one was never there. */
  lemma FailedPairing(v: seq<Entry>, i: nat, c: Client, w: nat, si: char, sw: char)
    requires Links(v) && i < |v| && v[i].Vacant? && w < |v| && v[w].Taken? && v[w].opponent == -1
    ensures var p := Paired(v, i, c, w, si, sw, null);
            && Removed(p, i) == Removed(v, w) == v[w := Vacant]
            && ClientsFreed(p, i) == {c, v[w].client} && GamesFreed(p, i) == {}
  {
    var p := Paired(v, i, c, w, si, sw, null);
    assert p[i := Vacant][w := Vacant] == v[w := Vacant];
  }

  // ---------------------------------------------------------------- the table itself

  class Table {
    const slots: array<Connection>
    var waiting: int
    var count: int

    // History: every client and game ever allocated, those freed, and every single call of free.
    ghost var madeClients: set<Client>
    ghost var madeGames: set<GameState>
    ghost var freedClients: set<Client>
    ghost var freedGames: set<GameState>
    ghost var clientFrees: multiset<Client>
    ghost var gameFrees: multiset<GameState>

    ghost function ClientObjects(): set<Client>
      reads slots
    {
      set i | 0 <= i < slots.Length && slots[i].client != null :: slots[i].client
    }

    ghost function EntryAt(i: nat): Entry
      requires i < slots.Length
      reads slots, ClientObjects()
    {
      var c := slots[i].client;
      if c == null then Vacant else Taken(c, c.symbol, c.opponent, c.game)
    }

    ghost function View(): seq<Entry>
      reads slots, ClientObjects()
    {
      seq(slots.Length, i requires 0 <= i < slots.Length reads slots, ClientObjects() => EntryAt(i))
    }

    /** A slot is EMPTY exactly when it has no client, and then nobody's address is in it; PINGED is
        never stored. */
    ghost predicate StatusOk()
      reads slots
    {
      forall i :: 0 <= i < slots.Length ==>
        if slots[i].client == null then slots[i].status == Empty && slots[i].addr == 0
        else slots[i].status == Registered
    }

    /** Nothing in the table has been freed. */
    ghost predicate LiveOk(v: seq<Entry>)
      reads this
    {
      && ClientsOf(v) <= madeClients - freedClients
      && GamesOf(v) <= madeGames - freedGames
    }

    /** The server at start: all slots zero. */
    constructor (size: nat)
      ensures Valid() && slots.Length == size && forall k :: 0 <= k < size ==> View()[k].Vacant?
      ensures fresh(slots) && count == 0 && waiting == -1
    {
      slots := new Connection[size](_ => Connection(0, null, Empty, 0));
      waiting, count := -1, 0;
      madeClients, madeGames, freedClients, freedGames := {}, {}, {}, {};
      clientFrees, gameFrees := multiset{}, multiset{};
      new;
      assert forall k :: 0 <= k < size ==> View()[k].Vacant?;
      AllVacant(View());
    }

    method FreeClient(ghost client: Client)
      requires client in madeClients - freedClients
      modifies this`freedClients, this`clientFrees
      ensures freedClients == old(freedClients) + {client} && clientFrees == old(clientFrees) + multiset{client}
    {
      freedClients := freedClients + {client};
      clientFrees := clientFrees + multiset{client};
    }

    method FreeGame(ghost game: GameState)
      requires game in madeGames - freedGames
      modifies this`freedGames, this`gameFrees
      ensures freedGames == old(freedGames) + {game} && gameFrees == old(gameFrees) + multiset{game}
    {
      freedGames := freedGames + {game};
      gameFrees := gameFrees + multiset{game};
    }

    method ClearSlot(i: nat)
      requires i < slots.Length && slots[i].client != null && StatusOk()
      modifies this`waiting, slots
      ensures View() == old(View())[i := Vacant]
      ensures StatusOk() && ClientObjects() <= old(ClientObjects())
      ensures forall k :: 0 <= k < slots.Length && k != i ==> slots[k] == old(slots[k])
      ensures waiting == if old(waiting) == i then -1 else old(waiting)
    {
      if i == waiting {
        waiting := -1;
      }
      slots[i] := NO_CONNECTION;
    }

    /** The first half of a removal: clears slot i and unties its opponent. */
    method Detach(i: nat) returns (client: Client, opponent: int)
      requires i < slots.Length && slots[i].client != null
      requires Links(View()) && StatusOk() && LiveOk(View())
      modifies this`waiting, this`freedGames, this`gameFrees, slots, ClientObjects()
      ensures client == old(slots[i].client) && opponent == old(slots[i].client.opponent)
      ensures opponent != -1 ==> Linked(old(View()), i)
      ensures View() == if opponent == -1 then old(View())[i := Vacant] else Detached(old(View()), i)
      ensures StatusOk() && ClientObjects() <= old(ClientObjects())
      ensures waiting == if old(waiting) == i then -1 else old(waiting)
      ensures freedGames == old(freedGames) + GamesFreed(old(View()), i)
      ensures gameFrees == old(gameFrees) + multiset(GamesFreed(old(View()), i))
    {
      ghost var before := View();
      client := slots[i].client;
      opponent := client.opponent;
      ClearSlot(i);
      client.opponent := -1;
      if opponent != -1 {
        assert Linked(before, i);
        assert View()[opponent].client == slots[opponent].client;
        if client.game != null {
          assert client.game in GamesOf(before);
          FreeGame(client.game);
        }
        Untie(opponent, before, i);
      }
    }

    method Untie(o: nat, ghost v: seq<Entry>, ghost i: nat)
      requires Links(v) && i < |v| == slots.Length && v[i].Taken? && o == v[i].opponent && Linked(v, i)
      requires slots[o].client == v[o].client && View() == v[i := Vacant]
      modifies slots[o].client
      ensures View() == Detached(v, i)
    {
      forall k | 0 <= k < |v| && k != o && slots[k].client != null
        ensures slots[k].client != slots[o].client
      {
        assert View()[k].client == slots[k].client;
      }
      assert View()[o] == v[o];
      slots[o].client.opponent := -1;
      forall k | 0 <= k < |v|
        ensures View()[k] == Detached(v, i)[k]
      {
        assert k != i && k != o ==> old(View())[k] == v[k];
      }
    }

    /** Removes a connection together with its opponent's, if it has one: two slots at most are
        cleared, each client and the game are freed once. */
    method RemoveConnection(i: nat)
      requires i < slots.Length && slots[i].client != null
      requires Links(View()) && StatusOk() && LiveOk(View())
      modifies this`waiting, this`count, this`freedClients, this`freedGames, this`clientFrees, this`gameFrees
      modifies slots, ClientObjects()
      ensures ClientObjects() <= old(ClientObjects())
      ensures View() == Removed(old(View()), i)
      ensures StatusOk()
      ensures count == old(count) - PairSize(old(View())[i].opponent)
      ensures waiting == if InPair(i, old(View())[i].opponent, old(waiting)) then -1 else old(waiting)
      ensures freedClients == old(freedClients) + ClientsFreed(old(View()), i)
      ensures clientFrees == old(clientFrees) + multiset(ClientsFreed(old(View()), i))
      ensures freedGames == old(freedGames) + GamesFreed(old(View()), i)
      ensures gameFrees == old(gameFrees) + multiset(GamesFreed(old(View()), i))
      decreases if slots[i].client.opponent == -1 then 0 else 2, 1
    {
      ghost var before := View();
      OwnClient(before, i);
      var client, opponent := Detach(i);
      RemoveRest(client, opponent, before, i);
    }

    /** What a removal does when slot i is cleared; `v` is the table before. */
    method RemoveRest(client: Client, opponent: int, ghost v: seq<Entry>, ghost i: nat)
      requires Links(v) && i < |v| && v[i].Taken? && v[i].client == client && v[i].opponent == opponent
      requires opponent != -1 ==> Linked(v, i) && 0 <= opponent < slots.Length
      requires View() == (if opponent == -1 then v[i := Vacant] else Detached(v, i)) && StatusOk()
      requires ClientsOf(v) <= madeClients - freedClients
      requires opponent != -1 ==> GamesOf(v) - {v[i].game} <= madeGames - freedGames
      modifies this`waiting, this`count, this`freedClients, this`freedGames, this`clientFrees, this`gameFrees
      modifies slots, ClientObjects()
      ensures View() == Removed(v, i) && StatusOk() && ClientObjects() <= old(ClientObjects())
      ensures count == old(count) - PairSize(opponent)
      ensures waiting == if opponent != -1 && old(waiting) == opponent then -1 else old(waiting)
      ensures freedClients == old(freedClients) + ClientsFreed(v, i)
      ensures clientFrees == old(clientFrees) + multiset(ClientsFreed(v, i))
      ensures freedGames == old(freedGames) && gameFrees == old(gameFrees)
      decreases if opponent == -1 then 0 else 2, 0
    {
      OwnClient(v, i);
      if opponent != -1 {
        RemoveOpponent(opponent, v, i);
      }
      count := count - 1;
      FreeClient(client);
    }

    /** The recursive call, in terms of the table `v` before the removal of slot i began. */
    method RemoveOpponent(o: nat, ghost v: seq<Entry>, ghost i: nat)
      requires Links(v) && i < |v| && v[i].Taken? && Linked(v, i) && o == v[i].opponent && o < slots.Length
      requires View() == Detached(v, i) && StatusOk() && ClientsOf(v) <= madeClients - freedClients
      requires GamesOf(v) - {v[i].game} <= madeGames - freedGames
      modifies this`waiting, this`count, this`freedClients, this`freedGames, this`clientFrees, this`gameFrees
      modifies slots, ClientObjects()
      ensures View() == Removed(v, i) && StatusOk() && ClientObjects() <= old(ClientObjects())
      ensures count == old(count) - 1 && waiting == (if old(waiting) == o then -1 else old(waiting))
      ensures freedClients + {v[i].client} == old(freedClients) + ClientsFreed(v, i)
      ensures clientFrees + multiset{v[i].client} == old(clientFrees) + multiset(ClientsFreed(v, i))
      ensures v[i].client in madeClients - freedClients
      ensures freedGames == old(freedGames) && gameFrees == old(gameFrees)
      decreases 1
    {
      RemovalInHalves(v, i);
      OwnClient(v, i);
      assert View()[o] == Detached(v, i)[o];
      RemoveConnection(o);
    }

    // -------------------------------------------------------------- between requests

    /** Exactly the clients and games in use are allocated and not freed, and none was freed twice. */
    ghost predicate HeapOk(v: seq<Entry>)
      reads this
    {
      && freedClients <= madeClients && ClientsOf(v) == madeClients - freedClients
      && freedGames <= madeGames && GamesOf(v) == madeGames - freedGames
      && clientFrees == multiset(freedClients) && gameFrees == multiset(freedGames)
    }

    ghost predicate Valid()
      reads this, slots, ClientObjects(), GamesOf(View())
    {
      && TableOk(View(), waiting, count)
      && StatusOk()
      && HeapOk(View())
      && GamesOk(View())
    }

    /** A removal from a table whose memory is accounted for. */
    method Release(i: nat)
      requires i < slots.Length && slots[i].client != null
      requires Links(View()) && StatusOk() && HeapOk(View())
      modifies this`waiting, this`count, this`freedClients, this`freedGames, this`clientFrees, this`gameFrees
      modifies slots, ClientObjects()
      ensures View() == Removed(old(View()), i) && StatusOk() && HeapOk(View())
      ensures ClientObjects() <= old(ClientObjects())
      ensures count == old(count) - PairSize(old(View())[i].opponent)
      ensures waiting == if InPair(i, old(View())[i].opponent, old(waiting)) then -1 else old(waiting)
    {
      ghost var v := View();
      assert v[i].opponent != -1 ==> Linked(v, i);
      RemovedClients(v, i);
      FreedOnce(freedClients, ClientsFreed(v, i));
      FreedOnce(freedGames, GamesFreed(v, i));
      RemoveConnection(i);
    }

    /** Removal from a table in which the pair's own game need not go on. */
    method CloseConnection(i: nat)
      requires i < slots.Length && slots[i].client != null
      requires TableOk(View(), waiting, count) && StatusOk() && HeapOk(View()) && GamesOk(Removed(View(), i))
      modifies this`waiting, this`count, this`freedClients, this`freedGames, this`clientFrees, this`gameFrees
      modifies slots, ClientObjects()
      ensures Valid()
      ensures ClientObjects() <= old(ClientObjects())
      ensures View() == Removed(old(View()), i)
      ensures count == old(count) - PairSize(old(View())[i].opponent)
    {
      RemovedKeepsTable(View(), waiting, count, i);
      Release(i);
    }

    /** Any client can be removed at any time: on its own request, when it does not answer, or on exit. */
    method HandleDisconnect(i: nat)
      requires Valid() && i < slots.Length && slots[i].client != null
      modifies this`waiting, this`count, this`freedClients, this`freedGames, this`clientFrees, this`gameFrees
      modifies slots, ClientObjects()
      ensures Valid()
      ensures ClientObjects() <= old(ClientObjects())
      ensures View() == Removed(old(View()), i)
      ensures count == old(count) - PairSize(old(View())[i].opponent)
    {
      RemovedKeepsGames(View(), i);
      CloseConnection(i);
    }

    /** Plays a valid move on the shared game and tells its result; `views` are the games before. */
    method PlayMove(i: nat, moveId: int) returns (result: GameResult, ghost views: map<GameState, Game>)
      requires i < slots.Length && slots[i].client != null && slots[i].client.opponent != -1
      requires Linked(View(), i) && View()[i].game != null && GamesOk(View())
      requires IsBoard(View()[i].game.View()) && 1 <= moveId <= 9
      modifies View()[i].game
      ensures var v := View();
              && GamesWere(v, views) && v[i].game in views && IsBoard(views[v[i].game])
              && views[v[i].game] == old(View()[i].game.View())
              && v[i].game.View() == Place(views[v[i].game], moveId, v[i].symbol, v[v[i].opponent].symbol)
              && result == GetGameResult(v[i].game.View(), moveId)
      ensures forall g :: g in views && g != View()[i].game ==> g.View() == views[g]
    {
      ghost var v := View();
      var client := slots[i].client;
      var game := client.game;
      var opponent := slots[client.opponent].client;
      views := Snapshot(v);
      game.Update(moveId, client.symbol, opponent.symbol);
      assert View() == v;
      result := GetGameResult(Game(game.turn, game.board, game.remaining), moveId);
    }

    /** A valid move: it is played on the shared game, and the connections are closed when the game is
        over or a send fails. */
    method AcceptMove(i: nat, moveId: int, sent1: bool, sent2: bool, sentResult: bool)
      returns (toMover: GameResult, toOpponent: GameResult)
      requires Valid() && i < slots.Length && slots[i].client != null && slots[i].client.opponent != -1
      requires Linked(View(), i) && View()[i].game != null && IsBoard(View()[i].game.View())
      requires IsValidMove(View()[i].game.View(), moveId, View()[i].symbol)
      modifies this`waiting, this`count, this`freedClients, this`freedGames, this`clientFrees, this`gameFrees
      modifies slots, ClientObjects(), View()[i].game
      ensures Valid()
      ensures var v := old(View()); var g := old(View()[i].game.View());
              v[i].game.View() == Place(g, moveId, v[i].symbol, v[v[i].opponent].symbol)
      ensures var v := old(View()); var r := GetGameResult(v[i].game.View(), moveId);
              && View() == (if sent1 && sent2 && r == Playing then v else Removed(v, i))
              && toMover == (if sent1 && sent2 then r else Playing)
              && toOpponent == (if sent1 && sent2 && sentResult then GetOppositeGameResult(r) else Playing)
    {
      ghost var v := View();
      toMover, toOpponent := Playing, Playing;
      ghost var views;
      var result;
      result, views := PlayMove(i, moveId);
      GamesAfterMove(v, i, views, moveId);
      if sent1 && sent2 {
        toMover := result;
        if toMover == Playing {
          return;
        }
        if sentResult {
          toOpponent := GetOppositeGameResult(toMover);
        }
      }
      CloseConnection(i);
    }

    /** A move message: it counts exactly when it is the sender's turn and the field is an empty one of the
        board; then that field is marked and the turn goes to the opponent.  `crash` tells that the sender has no
        opponent, whose pointer is followed before anything is checked. */
    method HandleMove(i: nat, moveId: int, sent1: bool, sent2: bool, sentResult: bool)
      returns (toMover: GameResult, toOpponent: GameResult, crash: bool)
      requires Valid() && i < slots.Length && slots[i].client != null
      modifies this`waiting, this`count, this`freedClients, this`freedGames, this`clientFrees, this`gameFrees
      modifies slots, ClientObjects(), slots[i].client.game
      ensures Valid()
      ensures crash <==> old(View())[i].opponent == -1
      ensures crash ==> View() == old(View()) && toMover == toOpponent == Playing
      ensures !crash ==> Linked(old(View()), i) && old(View())[i].game != null && old(IsBoard(View()[i].game.View()))
      ensures !crash ==>
                var v := old(View()); var g := old(View()[i].game.View());
                if g.turn == v[i].symbol && 1 <= moveId <= 9 && g.board[moveId - 1] == NO_MARK then
                  var g' := Game(v[v[i].opponent].symbol, g.board[moveId - 1 := v[i].symbol], g.remaining - 1);
                  var r := GetGameResult(g', moveId);
                  && v[i].game.View() == g'
                  && View() == (if sent1 && sent2 && r == Playing then v else Removed(v, i))
                  && toMover == (if sent1 && sent2 then r else Playing)
                  && toOpponent == (if sent1 && sent2 && sentResult then GetOppositeGameResult(r) else Playing)
                else
                  View() == v && v[i].game.View() == g && toMover == toOpponent == Playing
    {
      ghost var v := View();
      var client := slots[i].client;
      toMover, toOpponent, crash := Playing, Playing, client.opponent == -1;
      if crash {
        return;
      }
      PlayersLinked(v, waiting, count, i);
      var game := client.game;
      assert Between(game.View(), v[i].symbol, v[v[i].opponent].symbol);
      if IsValidMove(Game(game.turn, game.board, game.remaining), moveId, client.symbol) {
        toMover, toOpponent := AcceptMove(i, moveId, sent1, sent2, sentResult);
      }
    }

    // -------------------------------------------------------------- registration

    /** The first part of create_client_struct: a new client in an empty slot. */
    method Occupy(i: nat, fd: int, addr: int, nickname: string) returns (c: Client)
      requires i < slots.Length && slots[i].client == null && StatusOk() && Links(View())
      modifies this`count, this`madeClients, slots
      ensures fresh(c) && c.nickname == nickname
      ensures View() == old(View())[i := Taken(c, NO_MARK, -1, null)]
      ensures StatusOk() && Links(View()) && c !in ClientsOf(old(View()))
      ensures count == old(count) + 1 && madeClients == old(madeClients) + {c} && c !in old(madeClients)
      ensures slots[..] == old(slots[..])[i := Connection(fd, c, Registered, addr)]
      ensures ClientObjects() <= old(ClientObjects()) + {c}
    {
      ghost var v := View();
      c := new Client(nickname);
      slots[i] := Connection(fd, c, Registered, addr);
      AddedKeepsLinks(v, i, c, NO_MARK);
      count := count + 1;
      madeClients := madeClients + {c};
    }

    /** The clients of the two slots are in no other slot. */
    ghost predicate HaveOwnClients(i: nat, w: nat)
      requires i < slots.Length && w < slots.Length
      reads slots
    {
      && slots[i].client != null && slots[w].client != null && slots[i].client != slots[w].client
      && forall k :: 0 <= k < slots.Length && k != i && k != w && slots[k].client != null ==>
        slots[k].client != slots[i].client && slots[k].client != slots[w].client
    }

    lemma LinksSeparate(i: nat, w: nat)
      requires Links(View()) && i < slots.Length && w < slots.Length && i != w
      requires slots[i].client != null && slots[w].client != null
      ensures HaveOwnClients(i, w)
    {
      assert View()[i].client == slots[i].client && View()[w].client == slots[w].client;
      forall k | 0 <= k < slots.Length && k != i && k != w && slots[k].client != null
        ensures slots[k].client != slots[i].client && slots[k].client != slots[w].client
      {
        assert View()[k].client == slots[k].client;
      }
    }

    /** start_game_between_clients up to the first send: the two point at each other. */
    method Tie(i: nat, w: nat, si: char, sw: char)
      requires i < slots.Length && w < slots.Length && i != w && HaveOwnClients(i, w)
      modifies slots[i].client, slots[w].client
      ensures View() == old(View())[i := old(View())[i].(symbol := si, opponent := w)]
                                   [w := old(View())[w].(symbol := sw, opponent := i)]
    {
      slots[i].client.opponent := w;
      slots[w].client.opponent := i;
      slots[i].client.symbol := si;
      slots[w].client.symbol := sw;
    }

    /** The shared game of the two, freshly allocated. */
    method ShareGame(i: nat, w: nat, first: char) returns (g: GameState)
      requires i < slots.Length && w < slots.Length && i != w && HaveOwnClients(i, w)
      modifies slots[i].client, slots[w].client, this`waiting, this`madeGames
      ensures fresh(g) && g.View() == NewGame(first) && waiting == -1
      ensures madeGames == old(madeGames) + {g} && g !in old(madeGames)
      ensures View() == old(View())[i := old(View())[i].(game := g)][w := old(View())[w].(game := g)]
    {
      g := new GameState(first);
      slots[i].client.game := g;
      slots[w].client.game := g;
      madeGames := madeGames + {g};
      waiting := -1;
    }

    /** start_game_between_clients: fails when one of the four messages cannot be sent; the game object
        exists once both start messages are out, and from then on nobody waits. */
    method StartGame(i: nat, w: nat, si: char, sw: char, first: char,
                     start1: bool, start2: bool, state1: bool, state2: bool)
      returns (ok: bool, g: GameState?)
      requires i < slots.Length && w < slots.Length && i != w && HaveOwnClients(i, w)
      requires slots[i].client.game == null && slots[w].client.game == null
      modifies slots[i].client, slots[w].client, this`waiting, this`madeGames
      ensures View() == Paired(old(View()), i, slots[i].client, w, si, sw, g)
      ensures ok == (start1 && start2 && state1 && state2) && (g != null <==> start1 && start2)
      ensures g == null ==> waiting == old(waiting) && madeGames == old(madeGames)
      ensures g != null ==>
                && fresh(g) && g.View() == NewGame(first) && waiting == -1
                && madeGames == old(madeGames) + {g} && g !in old(madeGames)
    {
      Tie(i, w, si, sw);
      if !start1 || !start2 {
        return false, null;
      }
      g := ShareGame(i, w, first);
      ok := state1 && state2;
    }

    /** The new client and its game with the waiting one, before it is known whether all messages got
        through. */
    method Join(i: nat, fd: int, addr: int, nickname: string, si: char, sw: char, first: char,
                start1: bool, start2: bool, state1: bool, state2: bool)
      returns (ok: bool, c: Client, g: GameState?)
      requires Valid() && i < slots.Length && slots[i].client == null && waiting != -1 && si != sw
      modifies this`count, this`madeClients, this`waiting, this`madeGames, slots, slots[waiting].client
      ensures fresh(c) && c.nickname == nickname && c !in ClientsOf(old(View()))
      ensures ok == (start1 && start2 && state1 && state2) && (g != null <==> start1 && start2)
      ensures StatusOk() && slots[i].client == c && ClientObjects() <= old(ClientObjects()) + {c}
      ensures View() == Paired(old(View()), i, c, old(waiting), si, sw, g) && count == old(count) + 1
      ensures madeClients == old(madeClients) + {c} && c !in old(madeClients)
      ensures g == null ==> waiting == old(waiting) && madeGames == old(madeGames)
      ensures g != null ==>
                && fresh(g) && g.View() == NewGame(first) && waiting == -1
                && madeGames == old(madeGames) + {g} && g !in old(madeGames)
    {
      ghost var v := View();
      var w := waiting;
      c := Occupy(i, fd, addr, nickname);
      LinksSeparate(i, w);
      assert View()[i] == Taken(c, NO_MARK, -1, null) && View()[w] == v[w];
      ok, g := StartGame(i, w, si, sw, first, start1, start2, state1, state2);
    }

    /** Takes both clients of a game that could not be started out of the table; `v` is the table before
        the new client came. */
    method CancelGame(i: nat, ghost v: seq<Entry>, ghost n: int, ghost w: nat, ghost c: Client,
                      ghost si: char, ghost sw: char)
      requires TableOk(v, w, n) && GamesOk(v) && w < |v| && i < |v| == slots.Length && v[i].Vacant?
      requires slots[i].client != null && View() == Paired(v, i, c, w, si, sw, null) && Links(View())
      requires StatusOk() && waiting == w && count == n + 1 && HeapOk(View())
      modifies this`waiting, this`count, this`freedClients, this`freedGames, this`clientFrees, this`gameFrees
      modifies slots, ClientObjects()
      ensures Valid()
      ensures View() == v[w := Vacant] && waiting == -1 && count == n - 1
    {
      ghost var p := View();
      FailedPairing(v, i, c, w, si, sw);
      RemovedKeepsTable(v, w, n, w);
      assert Linked(p, i);
      RemovedKeepsGames(v, w);
      Release(i);
    }

    lemma StartedIsValid(v: seq<Entry>, n: int, i: nat, c: Client, w: nat, si: char, sw: char, g: GameState)
      requires TableOk(v, w, n) && GamesOk(v) && w < |v| && i < |v| && v[i].Vacant? && c !in ClientsOf(v)
      requires NicknameFree(v, c.nickname)
      requires si != sw && g !in GamesOf(v) && Between(g.View(), si, sw) && Between(g.View(), sw, si)
      requires View() == Paired(v, i, c, w, si, sw, g) && waiting == -1 && count == n + 1
      requires StatusOk() && HeapOk(View())
      ensures Valid()
    {
      StartedKeepsTable(v, n, i, c, w, si, sw, g);
      StartedGamesOk(v, i, c, w, si, sw, g);
    }

    /** A new client, while the client in slot `waiting` waits: either the two have a game, or both are gone
        again.  When the game exists and a message about its state cannot be sent, the error report reads
        the waiting slot through NULL; the table is then the one the server crashes with. */
    method PairNewClient(i: nat, fd: int, addr: int, nickname: string, si: char, sw: char, first: char,
                         start1: bool, start2: bool, state1: bool, state2: bool)
      returns (ok: bool, crash: bool, c: Client, g: GameState?)
      requires Valid() && i < slots.Length && slots[i].client == null && waiting != -1
      requires si != sw && si != NO_MARK && sw != NO_MARK && (first == si || first == sw)
      requires NicknameFree(View(), nickname)
      modifies this, slots, ClientObjects()
      ensures Valid() && fresh(c) && c.nickname == nickname
      ensures ok == (start1 && start2 && state1 && state2) && crash == (start1 && start2 && !ok)
      ensures (g != null <==> start1 && start2) && waiting == -1
      ensures count == old(count) + JoinedCount(old(waiting), ok, g)
      ensures g != null ==> View() == Paired(old(View()), i, c, old(waiting), si, sw, g)
      ensures g != null ==> fresh(g) && g.View() == NewGame(first)
      ensures g == null ==> View() == old(View())[old(waiting) := Vacant]
    {
      ghost var v, n, w := View(), count, waiting;
      ok, c, g := Join(i, fd, addr, nickname, si, sw, first, start1, start2, state1, state2);
      crash := !ok && waiting == -1;
      PairedClients(v, i, c, w, si, sw, g);
      if g != null {
        NewGameInProgress(first, if first == si then sw else si);
        StartedIsValid(v, n, i, c, w, si, sw, g);
      } else {
        PairedKeepsLinks(v, i, c, w, si, sw, g);
        CancelGame(i, v, n, w, c, si, sw);
      }
    }

    /** The memory is in order for table v, had only `made` been allocated. */
    ghost predicate HeapFits(v: seq<Entry>, made: set<Client>)
      reads this
    {
      && freedClients <= made && ClientsOf(v) == made - freedClients
      && freedGames <= madeGames && GamesOf(v) == madeGames - freedGames
      && clientFrees == multiset(freedClients) && gameFrees == multiset(freedGames)
    }

    lemma ParkedIsValid(v: seq<Entry>, n: int, i: nat, c: Client, made: set<Client>)
      requires TableOk(v, -1, n) && GamesOk(v) && i < |v| && v[i].Vacant? && c !in ClientsOf(v)
      requires NicknameFree(v, c.nickname)
      requires View() == v[i := Taken(c, NO_MARK, -1, null)] && waiting == i && count == n + 1
      requires StatusOk() && HeapFits(v, made) && madeClients == made + {c} && c !in made
      ensures Valid()
    {
      WaitingGamesOk(v, i, c);
      assert HeapOk(View());
      AddedKeepsTable(v, n, i, c, NO_MARK);
    }

    /** A new client that becomes the waiting one. */
    method Park(i: nat, fd: int, addr: int, nickname: string) returns (c: Client)
      requires Valid() && i < slots.Length && slots[i].client == null && waiting == -1
      requires NicknameFree(View(), nickname)
      modifies this, slots
      ensures Valid() && fresh(c) && c.nickname == nickname
      ensures waiting == i && count == old(count) + 1 && View() == old(View())[i := Taken(c, NO_MARK, -1, null)]
      ensures slots[i].client == c && ClientObjects() <= old(ClientObjects()) + {c}
    {
      ghost var v := View();
      ghost var n := count;
      ghost var made := madeClients;
      c := Occupy(i, fd, addr, nickname);
      waiting := i;
      ParkedIsValid(v, n, i, c, made);
    }

    /** A new client, while nobody waits: it waits, unless it cannot be told so. */
    method ParkNewClient(i: nat, fd: int, addr: int, nickname: string, sent: bool) returns (c: Client)
      requires Valid() && i < slots.Length && slots[i].client == null && waiting == -1
      requires NicknameFree(View(), nickname)
      modifies this, slots, ClientObjects()
      ensures Valid() && fresh(c) && c.nickname == nickname
      ensures sent ==>
                && waiting == i && count == old(count) + 1
                && View() == old(View())[i := Taken(c, NO_MARK, -1, null)]
      ensures !sent ==> waiting == -1 && count == old(count) && View() == old(View())
    {
      c := Park(i, fd, addr, nickname);
      if !sent {
        HandleDisconnect(i);
      }
    }

    /** The first empty slot. */
    method FindEmptyConnection() returns (i: int)
      ensures i == -1 ==> forall k :: 0 <= k < slots.Length ==> slots[k].status != Empty
      ensures i != -1 ==> 0 <= i < slots.Length && slots[i].status == Empty
                          && forall k :: 0 <= k < i ==> slots[k].status != Empty
    {
      i := 0;
      while i < slots.Length
        invariant 0 <= i <= slots.Length
        invariant forall k :: 0 <= k < i ==> slots[k].status != Empty
      {
        if slots[i].status == Empty {
          return;
        }
        i := i + 1;
      }
      i := -1;
    }

    ghost predicate Uses(nickname: string)
      reads slots, ClientObjects()
    {
      !NicknameFree(View(), nickname)
    }

    method IsNicknameAvailable(nickname: string) returns (available: bool)
      ensures available <==> nickname != UNREGISTERED_NICKNAME && !Uses(nickname)
    {
      if nickname == UNREGISTERED_NICKNAME {
        return false;
      }
      for i := 0 to slots.Length
        invariant forall k :: 0 <= k < i && View()[k].Taken? ==> View()[k].client.nickname != nickname
      {
        if slots[i].client != null && nickname == slots[i].client.nickname {
          assert View()[i].Taken? && View()[i].client.nickname == nickname;
          return false;
        }
      }
      available := true;
    }

    /** create_client_struct: the handling of an accepted registration.  The random numbers `coin` and
        `turn` choose the symbols and who starts. */
    method CreateClient(i: nat, fd: int, addr: int, nickname: string, coin: nat, turn: nat,
                        start1: bool, start2: bool, state1: bool, state2: bool, waitSent: bool)
      returns (ok: bool, crash: bool, c: Client, g: GameState?)
      requires Valid() && i < slots.Length && slots[i].client == null && coin < 2 && turn < 2
      requires !Uses(nickname)
      modifies this, slots, ClientObjects()
      ensures Valid() && fresh(c) && c.nickname == nickname
      ensures ok == (if old(waiting) == -1 then waitSent else start1 && start2 && state1 && state2)
      ensures crash == (old(waiting) != -1 && start1 && start2 && !(state1 && state2))
      ensures View() == Joined(old(View()), old(waiting), i, c, coin, ok, g)
      ensures waiting == (if old(waiting) == -1 && ok then i else -1)
      ensures count == old(count) + JoinedCount(old(waiting), ok, g)
      ensures g != null <==> old(waiting) != -1 && start1 && start2
      ensures g != null ==> fresh(g) && g.View() == NewGame(PLAYER_SYMBOLS[turn])
    {
      if waiting == -1 {
        c := ParkNewClient(i, fd, addr, nickname, waitSent);
        ok, crash, g := waitSent, false, null;
      } else {
        ok, crash, c, g := PairNewClient(i, fd, addr, nickname, PLAYER_SYMBOLS[coin], PLAYER_SYMBOLS[1 - coin],
                                         PLAYER_SYMBOLS[turn], start1, start2, state1, state2);
      }
    }

    /** Looks for a slot and at the nickname: the slot, or -1 and why there is none for this client. */
    method Admit(nickname: string) returns (slot: int, refusal: Registration)
      requires StatusOk()
      ensures slot == -1 ==> refusal == if Full() then ServerFull else UsernameTaken
      ensures slot == -1 <==> Full() || nickname == UNREGISTERED_NICKNAME || Uses(nickname)
      ensures slot != -1 ==>
                0 <= slot < |View()| && View()[slot].Vacant? && forall k :: 0 <= k < slot ==> View()[k].Taken?
    {
      slot := FindEmptyConnection();
      var available := IsNicknameAvailable(nickname);
      assert forall k :: 0 <= k < |View()| ==> (View()[k].Taken? <==> slots[k].status != Empty);
      refusal := if slot == -1 then ServerFull else UsernameTaken;
      if !available {
        slot := -1;
      }
    }

    ghost predicate Full()
      reads slots, ClientObjects()
    {
      forall k :: 0 <= k < |View()| ==> View()[k].Taken?
    }

    /** A registration request: it is turned down and changes nothing, or it makes one new client. */
    method RegisterNewClient(fd: int, addr: int, nickname: string, coin: nat, turn: nat,
                             start1: bool, start2: bool, state1: bool, state2: bool, waitSent: bool)
      returns (reply: Registration, ghost i: int, ghost c: Client?, ghost g: GameState?)
      requires Valid() && coin < 2 && turn < 2
      modifies this, slots, ClientObjects()
      ensures Valid()
      ensures reply.ServerFull? <==> old(Full())
      ensures reply.UsernameTaken? <==> !old(Full()) && (nickname == UNREGISTERED_NICKNAME || old(Uses(nickname)))
      ensures !reply.Accepted? ==> View() == old(View()) && count == old(count) && waiting == old(waiting)
      ensures reply.Accepted? ==>
                && 0 <= i < |old(View())| && old(View())[i].Vacant?
                && (forall k :: 0 <= k < i ==> old(View())[k].Taken?)
                && c != null && c.nickname == nickname
                && View() == Joined(old(View()), old(waiting), i, c, coin, reply.ok, g)
                && count == old(count) + JoinedCount(old(waiting), reply.ok, g)
                && waiting == (if old(waiting) == -1 && reply.ok then i else -1)
                && (g != null <==> old(waiting) != -1 && start1 && start2)
      ensures reply.Accepted? ==>
                && reply.ok == (if old(waiting) == -1 then waitSent else start1 && start2 && state1 && state2)
                && reply.crash == (old(waiting) != -1 && start1 && start2 && !(state1 && state2))
    {
      i, c, g := -1, null, null;
      var slot;
      slot, reply := Admit(nickname);
      if slot != -1 {
        i := slot;
        assert View()[i].Vacant?;
        var ok, crash, client, game := CreateClient(slot, fd, addr, nickname, coin, turn,
                                                    start1, start2, state1, state2, waitSent);
        reply, c, g := Accepted(ok, crash), client, game;
      }
    }

    /** Pings everybody, up to the first message that cannot be sent.  The mark goes to a copy of the
        connection, so no slot is ever found PINGED and nobody is removed for being silent. */
    method PingConnections(sent: seq<bool>) returns (ok: bool)
      requires Valid() && |sent| == slots.Length
      ensures ok <==> forall k :: 0 <= k < |View()| && View()[k].Taken? ==> sent[k]
    {
      for i := 0 to slots.Length
        invariant forall k :: 0 <= k < i && View()[k].Taken? ==> sent[k]
      {
        if slots[i].status == Empty {
          continue;
        }
        if slots[i].status == Pinged {
          assert false;
        } else {
          ok := PingConnection(slots[i], sent[i]);
          if !ok {
            assert View()[i].Taken?;
            return;
          }
        }
      }
      ok := true;
    }

    method PingConnection(conn: Connection, sent: bool) returns (ok: bool)
      ensures ok == sent
    {
      var copy := conn.(status := Pinged);
      ok := sent;
    }

    method HandlePing(i: nat)
      requires Valid() && i < slots.Length && slots[i].client != null
      modifies slots
      ensures Valid() && View() == old(View()) && slots[i] == old(slots[i]).(status := Registered)
      ensures forall k :: 0 <= k < slots.Length && k != i ==> slots[k] == old(slots[k])
    {
      slots[i] := slots[i].(status := Registered);
      assert View() == old(View());
    }

    /** The client a message comes from: the first slot with its address. */
    method FindConnection(addr: int) returns (i: int)
      requires Valid() && addr != 0
      ensures i == -1 ==> forall k :: 0 <= k < slots.Length ==> slots[k].addr != addr
      ensures i != -1 ==> 0 <= i < slots.Length && slots[i].addr == addr && slots[i].client != null
                          && forall k :: 0 <= k < i ==> slots[k].addr != addr
    {
      i := 0;
      while i < slots.Length
        invariant 0 <= i <= slots.Length
        invariant forall k :: 0 <= k < i ==> slots[k].addr != addr
      {
        if slots[i].addr == addr {
          return;
        }
        i := i + 1;
      }
      i := -1;
    }

    method DisconnectIfTaken(i: nat)
      requires Valid() && i < slots.Length
      modifies this`waiting, this`count, this`freedClients, this`freedGames, this`clientFrees, this`gameFrees
      modifies slots, ClientObjects()
      ensures Valid() && ClientObjects() <= old(ClientObjects())
      ensures View()[i].Vacant? && forall k :: 0 <= k < i && old(View())[k].Vacant? ==> View()[k].Vacant?
    {
      assert View()[i].Vacant? <==> slots[i].client == null;
      if slots[i].status != Empty {
        RemovedKeepsLinks(View(), i);
        HandleDisconnect(i);
      }
    }

    /** On exit everybody is disconnected, and every client and game ever allocated has been freed. */
    method ExitHandler()
      requires Valid()
      modifies this`waiting, this`count, this`freedClients, this`freedGames, this`clientFrees, this`gameFrees
      modifies slots, ClientObjects()
      ensures Valid() && count == 0 && waiting == -1
      ensures forall k :: 0 <= k < |View()| ==> View()[k].Vacant?
      ensures clientFrees == multiset(madeClients) && gameFrees == multiset(madeGames)
    {
      ghost var clients := ClientObjects();
      for i := 0 to slots.Length
        invariant Valid() && ClientObjects() <= clients
        invariant forall k :: 0 <= k < i ==> View()[k].Vacant?
      {
        DisconnectIfTaken(i);
      }
      AllVacant(View());
    }
  }
}
