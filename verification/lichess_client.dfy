/** The local logic of the Lichess board client: which colour the account
    plays, whose turn it is from the game's move list, the last move of
    that list, and the refusal to send a move when no game is running. The
    HTTP requests themselves are left out. */
module LichessClient {
  import opened Basics
  import opened Strings

  datatype Client = Client(
    username: Option<string>,
    myColor: Option<string>,
    gameId: Option<string>)

  /** Python truthiness of an optional text: present and non-empty. */
  predicate Truthy(s: Option<string>) {
    s.Some? && s.value != ""
  }

  /** `(s or "")`. */
  function OrEmpty(s: Option<string>): (t: string)
    ensures Truthy(s) ==> t == s.value
    ensures !Truthy(s) ==> t == ""
  {
    if s.Some? then s.value else ""
  }

  /** A `gameFull` event's player ids; a missing player or id reads as "". */
  datatype GameFull = GameFull(whiteId: Option<string>, blackId: Option<string>)

  /** Case-insensitive identity of two account names. */
  predicate SameAccount(a: string, b: string) {
    Lower(a) == Lower(b)
  }

  /** White is matched first, then black; with neither matching the colour
      is left as it was. */
  function SetMyColor(c: Client, event: GameFull): (r: Client)
    ensures var me := OrEmpty(c.username);
      SameAccount(OrEmpty(event.whiteId), me) ==> r.myColor == Some("white")
    ensures var me := OrEmpty(c.username);
      (!SameAccount(OrEmpty(event.whiteId), me) && SameAccount(OrEmpty(event.blackId), me))
        ==> r.myColor == Some("black")
    ensures var me := OrEmpty(c.username);
      (!SameAccount(OrEmpty(event.whiteId), me) && !SameAccount(OrEmpty(event.blackId), me))
        ==> r.myColor == c.myColor
    ensures r.username == c.username && r.gameId == c.gameId
  {
    var me := Lower(OrEmpty(c.username));
    if Lower(OrEmpty(event.whiteId)) == me then c.(myColor := Some("white"))
    else if Lower(OrEmpty(event.blackId)) == me then c.(myColor := Some("black"))
    else c
  }

  /** Changing the letter case of any id, or of the account name, does not
      change the colour chosen. */
  lemma SetMyColorIgnoresCase(c: Client, event: GameFull, c2: Client, event2: GameFull)
    requires SameAccount(OrEmpty(c.username), OrEmpty(c2.username)) && c.myColor == c2.myColor
    requires SameAccount(OrEmpty(event.whiteId), OrEmpty(event2.whiteId))
    requires SameAccount(OrEmpty(event.blackId), OrEmpty(event2.blackId))
    ensures SetMyColor(c, event).myColor == SetMyColor(c2, event2).myColor
  {
  }

  /** The account playing white is recognised whatever the case of its id. */
  lemma PlayingWhiteRecognised(c: Client, id: string)
    requires c.username == Some(id)
    ensures SetMyColor(c, GameFull(Some(Lower(id)), None)).myColor == Some("white")
  {
    LowerIdempotent(id);
  }

  /** Whose turn it is: white moves after an even number of moves, and any
      other set colour is treated as black. */
  function IsMyTurn(c: Client, moves: string): (mine: bool)
    ensures !Truthy(c.myColor) ==> !mine
    ensures Truthy(c.myColor) && c.myColor.value == "white" ==> (mine <==> |Words(moves)| % 2 == 0)
    ensures Truthy(c.myColor) && c.myColor.value != "white" ==> (mine <==> |Words(moves)| % 2 == 1)
  {
    if !Truthy(c.myColor) then false
    else
      var ws := if moves != "" then Words(moves) else [];
      if c.myColor.value == "white" then |ws| % 2 == 0 else |ws| % 2 == 1
  }

  /** Each further move hands the turn to the other side. */
  lemma TurnAlternates(c: Client, ws: seq<string>, w: string)
    requires Truthy(c.myColor)
    requires forall i :: 0 <= i < |ws| ==> IsWord(ws[i])
    requires IsWord(w)
    ensures IsMyTurn(c, Unwords(ws + [w])) == !IsMyTurn(c, Unwords(ws))
  {
    AppendWords(ws, w);
    WordsUnwords(ws);
    WordsUnwords(ws + [w]);
    TurnFlipsWithCount(c, Unwords(ws), Unwords(ws + [w]));
  }

  /** A list of words with one more word appended is still a list of
      words. */
  lemma AppendWords(ws: seq<string>, w: string)
    requires forall i :: 0 <= i < |ws| ==> IsWord(ws[i])
    requires IsWord(w)
    ensures forall i :: 0 <= i < |ws + [w]| ==> IsWord((ws + [w])[i])
  {
    var longer := ws + [w];
    forall i | 0 <= i < |longer| ensures IsWord(longer[i]) {
      if i < |ws| { assert longer[i] == ws[i]; }
    }
  }

  /** One more token in the move list flips whose turn it is. */
  lemma TurnFlipsWithCount(c: Client, before: string, after: string)
    requires Truthy(c.myColor)
    requires |Words(after)| == |Words(before)| + 1
    ensures IsMyTurn(c, after) == !IsMyTurn(c, before)
  {
  }

  /** Exactly one of the two colours is to move, whatever the move list. */
  lemma ExactlyOneSideToMove(c: Client, moves: string)
    requires c.myColor == Some("white")
    ensures IsMyTurn(c, moves) != IsMyTurn(c.(myColor := Some("black")), moves)
  {
  }

  /** The last whitespace-separated token of the move list, if any. */
  function GetLastMove(moves: string): (last: Option<string>)
    ensures last.None? <==> |Words(moves)| == 0
    ensures last.Some? ==> last.value == Words(moves)[|Words(moves)| - 1]
  {
    if moves == "" then None
    else
      var ws := Words(moves);
      if |ws| > 0 then Some(ws[|ws| - 1]) else None
  }

  /** The last move of a list written out with spaces is its last entry. */
  lemma LastMoveOfList(ws: seq<string>, w: string)
    requires forall i :: 0 <= i < |ws| ==> IsWord(ws[i])
    requires IsWord(w)
    ensures GetLastMove(Unwords(ws + [w])) == Some(w)
  {
    AppendWords(ws, w);
    WordsUnwords(ws + [w]);
  }

  /** A list holding only whitespace has no last move. */
  lemma BlankListHasNoLastMove(moves: string)
    requires forall i :: 0 <= i < |moves| ==> IsSpace(moves[i])
    ensures GetLastMove(moves).None?
  {
    BlankHasNoWords(moves);
  }

  /** What a move or resignation call does before any network traffic. */
  datatype Request = NoGame | Post(gameId: string, path: string)

  const BASE_URL := "https://lichess.org"

  /** `make_move`: without a current game it answers false at once;
      otherwise it posts the move to the game's move endpoint. */
  function MakeMove(c: Client, uci: string): (r: Request)
    ensures r.NoGame? <==> !Truthy(c.gameId)
    ensures r.Post? ==> r.gameId == c.gameId.value
    ensures r.Post? ==> r.path == BASE_URL + "/api/board/game/" + c.gameId.value + "/move/" + uci
  {
    if !Truthy(c.gameId) then NoGame
    else Post(c.gameId.value, BASE_URL + "/api/board/game/" + c.gameId.value + "/move/" + uci)
  }

  /** The uci text is the final part of the endpoint, so distinct moves in
      the same game go to distinct endpoints. */
  lemma MakeMoveDistinguishesMoves(c: Client, u1: string, u2: string)
    requires Truthy(c.gameId) && u1 != u2
    ensures MakeMove(c, u1).path != MakeMove(c, u2).path
  {
    var prefix := BASE_URL + "/api/board/game/" + c.gameId.value + "/move/";
    assert (prefix + u1)[|prefix|..] == u1 && (prefix + u2)[|prefix|..] == u2;
  }

  /** `resign` shares the guard of `make_move`. */
  function Resign(c: Client): (r: Request)
    ensures r.NoGame? <==> !Truthy(c.gameId)
    ensures r.Post? ==> r.path == BASE_URL + "/api/board/game/" + c.gameId.value + "/resign"
  {
    if !Truthy(c.gameId) then NoGame
    else Post(c.gameId.value, BASE_URL + "/api/board/game/" + c.gameId.value + "/resign")
  }
}
