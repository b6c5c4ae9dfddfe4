/** The menu on the game's side: two controllers, one owner, and the requests it leaves in the mailbox. */
module Menu {
  import opened Words
  import opened HidSession
  import opened PortalSpec

  // --------------------------------------------------------------------------
  // Buttons

  /** A button word as the set of its bits. */
  type Button = x: int | 0 <= x < 32
  type Keys = set<Button>

  const LEFT: Button := 0
  const RIGHT: Button := 1
  const DOWN: Button := 2
  const UP: Button := 3
  const PLUS: Button := 4
  const TWO: Button := 8
  const ONE: Button := 9
  const B: Button := 10
  const A: Button := 11
  const MINUS: Button := 12
  const Z: Button := 13
  const C: Button := 14

  predicate Chord(keys: Keys) {
    PLUS in keys && MINUS in keys
  }

  // --------------------------------------------------------------------------
  // State

  const LIMIT := 640
  const SHOW := 1

  /** `menu_state`. */
  datatype State = State(slot: SlotIndex, chordHeld: bool, minusArmed: bool, visible: bool, swallow: bool,
                         previous: Keys, selected: nat, seqno: u32, page: nat, pending: bool, frames: u32)

  type Pair = s: seq<Keys> | |s| == 2 witness [{}, {}]
  type Player = x: int | 0 <= x < 2

  /** `menu_players`. */
  datatype Players = Players(previous: Pair, owner: Player)

  datatype Overlay = Overlay(state: State, players: Players, box: Request)

  /** The zeroed statics of the overlay. */
  function Off(): Overlay {
    Overlay(State(0, false, false, false, false, {}, 0, 0, 0, false, 0), Players([{}, {}], 0),
      Request(0, 0, 0, 0, 0, 0))
  }

  // --------------------------------------------------------------------------
  // Input

  function Moved(selected: nat, edge: Keys, n: nat): (r: nat)
    requires n > 0 && selected < n
    ensures r < n
  {
    var a := if UP in edge then (if selected > 0 then selected - 1 else n - 1) else selected;
    var b := if DOWN in edge then (a + 1) % n else a;
    var c := if LEFT in edge then (if b >= 8 then b - 8 else 0) else b;
    if RIGHT in edge then (if c + 8 < n then c + 8 else n - 1) else c
  }

  function Row(s: State): nat {
    s.selected / 8 * 8
  }

  /** The figure list of `menu_input`. */
  function Browse(s: State, edge: Keys, n: nat): (State, nat) {
    if n == 0 then (s, if s.page != Row(s) then SHOW else 0)
    else
      var t := s.(selected := Moved(if s.selected >= n then n - 1 else s.selected, edge, n));
      (t, if A in edge then LOAD else if t.page != Row(t) then SHOW else 0)
  }

  /** A Minus press arms a removal; Plus disarms it. */
  function Armed(s: State, edge: Keys, keys: Keys): bool {
    PLUS !in keys && (s.minusArmed || MINUS in edge)
  }

  /** `menu_input` while the menu is shown and no chord is held. */
  function Shown(s: State, edge: Keys, before: Keys, n: nat): (State, nat) {
    var keys := s.previous;
    if B in edge then (s.(visible := false, minusArmed := false), 0)
    else if s.pending then (s.(minusArmed := false), 0)
    else if C in edge then (s.(slot := (s.slot + 15) % 16), 4)
    else if Z in edge then (s.(slot := (s.slot + 1) % 16), 4)
    else
      var t := s.(minusArmed := Armed(s, edge, keys));
      if MINUS in before && MINUS !in keys && t.minusArmed then (t.(minusArmed := false), REMOVE)
      else if ONE in edge then (t, 5)
      else if TWO in edge then (t, 6)
      else Browse(t, edge, n)
  }

  /** `menu_input`. */
  function Input(s: State, keys: Keys, n: nat): (State, nat) {
    var t := s.(previous := keys, swallow := s.swallow && keys != {});
    if Chord(keys) && !Chord(s.previous) then
      (t.(visible := !s.visible, swallow := true, chordHeld := true, minusArmed := false), if s.visible then 0
        else SHOW)
    else if s.chordHeld then (t.(chordHeld := PLUS in keys || MINUS in keys), 0)
    else if !s.visible then (t.(minusArmed := false), 0)
    else Shown(t.(swallow := true), keys - s.previous, s.previous, n)
  }

  predicate Edge(p: Players, keys: Pair, i: Player) {
    Chord(keys[i]) && !Chord(p.previous[i])
  }

  function Chosen(p: Players, keys: Pair): Option<Player> {
    if Edge(p, keys, 0) then Some(0) else if Edge(p, keys, 1) then Some(1) else None
  }

  function Reowned(s: State): State {
    s.(visible := false, previous := {}, chordHeld := false, minusArmed := false)
  }

  /** A controller that completes the chord takes over a hidden menu, or one that is not its own. */
  predicate TakesOver(s: State, p: Players, keys: Pair) {
    Chosen(p, keys).Some? && (!s.visible || Chosen(p, keys).value != p.owner)
  }

  function Owner(s: State, p: Players, keys: Pair): Player {
    if TakesOver(s, p, keys) then Chosen(p, keys).value else p.owner
  }

  function Before(s: State, p: Players, keys: Pair): State {
    if TakesOver(s, p, keys) then Reowned(s) else s
  }

  /** `menu_input_players`. */
  function PlayersInput(s: State, p: Players, keys: Pair, n: nat): (State, Players, nat) {
    var owner := Owner(s, p, keys);
    var r := Input(Before(s, p, keys), keys[owner], n);
    (r.0, Players(keys, owner), r.1)
  }

  /** The argument word of a request. */
  function Argument(s: State, op: nat): nat {
    if op == LOAD || op == REMOVE then s.slot * 0x1_0000 + s.selected else if op == 4 then s.slot else s.page
  }

  function NextSeq(q: u32): (r: u32)
    ensures r != 0 && r != q
  {
    if Plus(q, 1) == 0 then 1 else Plus(q, 1)
  }

  predicate Selectable(s: State) {
    s.selected < LIMIT && s.page < LIMIT
  }

  /** `request`. */
  function Requested(s: State, box: Request, op: u32): (State, Request)
    requires Selectable(s)
  {
    var t := s.(page := Row(s), seqno := NextSeq(s.seqno), pending := true, frames := 0);
    (t, Request(0x4531324d, t.seqno, op, Argument(t, op), 0x534b595a, box.heartbeat))
  }

  /** One frame: the button words of both controllers, and the words of the accepted reply the menu looks at. */
  datatype Frame = Frame(keys: Pair, count: u32, answered: u32)

  function Entries(f: Frame): nat {
    if f.count > LIMIT then 0 else f.count
  }

  function Waited(s: State, answered: u32): State {
    if s.pending then s.(frames := Plus(s.frames, 1), pending := answered != s.seqno) else s
  }

  lemma InputSelectable(s: State, p: Players, keys: Pair, n: nat)
    requires Selectable(s) && n <= LIMIT
    ensures Selectable(PlayersInput(s, p, keys, n).0)
  {
  }

  /** `update_menu` after its snapshot; the number is the action of this frame. */
  function Update(o: Overlay, f: Frame): (r: (Overlay, nat))
    requires Selectable(o.state)
    ensures Selectable(r.0.state)
  {
    var box := o.box.(heartbeat := Plus(o.box.heartbeat, 1));
    InputSelectable(Waited(o.state, f.answered), o.players, f.keys, Entries(f));
    var r := PlayersInput(Waited(o.state, f.answered), o.players, f.keys, Entries(f));
    if r.2 == 0 then (Overlay(r.0, r.1, box), 0)
    else
      var q := Requested(r.0, box, r.2);
      (Overlay(q.0, r.1, q.1), r.2)
  }

  // --------------------------------------------------------------------------
  // What a frame keeps

  predicate InputOk(s: State) {
    && (s.minusArmed ==> s.visible && !s.chordHeld)
    && (Chord(s.previous) ==> s.chordHeld)
  }

  predicate OverlayOk(o: Overlay) {
    && Selectable(o.state) && InputOk(o.state)
    && o.state.previous == o.players.previous[o.players.owner]
  }

  lemma InputKeeps(s: State, keys: Keys, n: nat)
    requires InputOk(s)
    ensures InputOk(Input(s, keys, n).0) && Input(s, keys, n).0.previous == keys
  {
  }

  lemma UpdateKeeps(o: Overlay, f: Frame)
    requires OverlayOk(o)
    ensures OverlayOk(Update(o, f).0)
  {
    var s, t := UpdateIsInput(o, f);
    InputKeeps(s, f.keys[Update(o, f).0.players.owner], Entries(f));
  }

  /** Of the input state a request changes only the page, the number and the waiting. */
  predicate SameInput(s: State, t: State) {
    t == s.(page := t.page, seqno := t.seqno, pending := t.pending, frames := t.frames)
  }

  /** A frame is one `menu_input` on the new owner's buttons, from the state `s` that it finds. */
  lemma UpdateIsInput(o: Overlay, f: Frame) returns (s: State, t: State)
    requires OverlayOk(o)
    ensures var u, i := Update(o, f), Update(o, f).0.players.owner;
      && u.0.players.previous == f.keys
      && (t, u.1) == Input(s, f.keys[i], Entries(f)) && SameInput(t, u.0.state)
      && InputOk(s)
      && if TakesOver(o.state, o.players, f.keys)
         then SameInput(Reowned(o.state), s) && Chosen(o.players, f.keys) == Some(i)
         else SameInput(o.state, s) && i == o.players.owner && s.previous == o.players.previous[i]
  {
    var w := Waited(o.state, f.answered);
    s := Before(w, o.players, f.keys);
    t := PlayersInput(w, o.players, f.keys, Entries(f)).0;
  }

  // --------------------------------------------------------------------------
  // Histories

  predicate Plays(o: Overlay, f: Frame, t: Overlay) {
    Selectable(o.state) && t == Update(o, f).0
  }

  /** `trace` lists the states of the overlay around the frames. */
  predicate IsHistory(trace: seq<Overlay>, frames: seq<Frame>) {
    && |trace| == |frames| + 1 && trace[0] == Off()
    && forall k | 0 <= k < |frames| :: Plays(trace[k], frames[k], trace[k + 1])
  }

  /** The action of frame `k`. */
  function Action(trace: seq<Overlay>, frames: seq<Frame>, k: nat): nat
    requires IsHistory(trace, frames) && k < |frames|
  {
    assert Plays(trace[k], frames[k], trace[k + 1]);
    Update(trace[k], frames[k]).1
  }

  /** What a controller held before frame `k`. */
  function Held(frames: seq<Frame>, k: nat, i: Player): Keys
    requires k <= |frames|
  {
    if k == 0 then {} else frames[k - 1].keys[i]
  }

  lemma {:induction false} HistoryOk(trace: seq<Overlay>, frames: seq<Frame>, k: nat)
    requires IsHistory(trace, frames) && k < |trace|
    ensures OverlayOk(trace[k])
    ensures forall i: Player :: trace[k].players.previous[i] == Held(frames, k, i)
  {
    if k > 0 {
      HistoryOk(trace, frames, k - 1);
      assert Plays(trace[k - 1], frames[k - 1], trace[k]);
      UpdateKeeps(trace[k - 1], frames[k - 1]);
    }
  }

  /**
    * A hidden menu opens exactly when some controller completes Plus and Minus in this frame, that
    * controller alone holding both now and not both before; it becomes the owner.
    */
  lemma OpensOnCompleteChord(trace: seq<Overlay>, frames: seq<Frame>, k: nat)
    requires IsHistory(trace, frames) && k < |frames| && !trace[k].state.visible
    ensures var t, owner := trace[k + 1], trace[k + 1].players.owner;
      && (t.state.visible <==> exists i: Player :: Chord(frames[k].keys[i]) && !Chord(Held(frames, k, i)))
      && (t.state.visible ==> Chord(frames[k].keys[owner]) && !Chord(Held(frames, k, owner)))
  {
    HistoryOk(trace, frames, k);
    assert Plays(trace[k], frames[k], trace[k + 1]);
    assert forall i: Player :: Edge(trace[k].players, frames[k].keys, i) <==>
          Chord(frames[k].keys[i]) && !Chord(Held(frames, k, i));
    var s, t := UpdateIsInput(trace[k], frames[k]);
  }

  /** A shown menu is hidden only by its owner, pressing B or completing the chord. */
  lemma ClosesByOwner(trace: seq<Overlay>, frames: seq<Frame>, k: nat)
    requires IsHistory(trace, frames) && k < |frames| && trace[k].state.visible && !trace[k + 1].state.visible
    ensures var i, now := trace[k].players.owner, frames[k].keys;
      && trace[k + 1].players.owner == i
      && ((B in now[i] && B !in Held(frames, k, i)) || (Chord(now[i]) && !Chord(Held(frames, k, i))))
  {
    HistoryOk(trace, frames, k);
    assert Plays(trace[k], frames[k], trace[k + 1]);
    OwnerHides(trace[k], frames[k]);
  }

  predicate Masked(s: State) {
    s.visible || s.swallow
  }

  lemma InputHides(s: State, keys: Keys, n: nat)
    ensures var t := Input(s, keys, n).0;
      && (Chord(keys) && !Chord(s.previous) ==> t.visible == !s.visible)
      && (s.visible && !t.visible ==> (B in keys && B !in s.previous) || (Chord(keys) && !Chord(s.previous)))
      && (s.visible && !t.visible ==> t.swallow)
      && (Masked(s) && keys != {} ==> Masked(t))
      && (!t.visible && keys == {} ==> !Masked(t))
  {
  }

  lemma OwnerHides(o: Overlay, f: Frame)
    requires OverlayOk(o) && o.state.visible && !Update(o, f).0.state.visible
    ensures var i := o.players.owner;
      && Update(o, f).0.players.owner == i && Masked(Update(o, f).0.state)
      && ((B in f.keys[i] && B !in o.state.previous) || (Chord(f.keys[i]) && !Chord(o.state.previous)))
  {
    var s, t := UpdateIsInput(o, f);
    InputHides(s, f.keys[Update(o, f).0.players.owner], Entries(f));
  }

  // --------------------------------------------------------------------------
  // Removal

  /** Before frame `k` a controller holds Minus, and has not held Plus since it pressed it. */
  predicate Clean(frames: seq<Frame>, k: nat, i: Player)
    requires k <= |frames|
  {
    && k > 0
    && MINUS in Held(frames, k, i) && PLUS !in Held(frames, k, i)
    && (Clean(frames, k - 1, i) || MINUS !in Held(frames, k - 1, i))
  }

  /** Minus went down in frame `j` and stayed down until frame `k`, where it is up; Plus was never down. */
  predicate CleanHold(frames: seq<Frame>, i: Player, j: nat, k: nat)
    requires j < k < |frames|
  {
    && MINUS !in Held(frames, j, i)
    && (forall m | j <= m < k :: MINUS in frames[m].keys[i] && PLUS !in frames[m].keys[i])
    && MINUS !in frames[k].keys[i] && PLUS !in frames[k].keys[i]
  }

  lemma {:induction false} CleanSince(frames: seq<Frame>, k: nat, i: Player) returns (j: nat)
    requires k <= |frames| && Clean(frames, k, i)
    ensures j < k && MINUS !in Held(frames, j, i)
    ensures forall m | j <= m < k :: MINUS in frames[m].keys[i] && PLUS !in frames[m].keys[i]
  {
    if Clean(frames, k - 1, i) {
      j := CleanSince(frames, k - 1, i);
    } else {
      j := k - 1;
    }
  }

  /** The arming flag follows clean holds; a removal ends one. */
  lemma InputArms(s: State, keys: Keys, n: nat, clean: bool)
    requires InputOk(s) && (s.minusArmed && MINUS in s.previous ==> clean)
    ensures Input(s, keys, n).0.minusArmed && MINUS in keys ==> PLUS !in keys && (clean || MINUS !in s.previous)
    ensures Input(s, keys, n).1 == REMOVE ==> clean && MINUS !in keys && PLUS !in keys
  {
  }

  lemma UpdateArms(o: Overlay, f: Frame, clean: bool)
    requires OverlayOk(o) && (o.state.minusArmed && MINUS in o.state.previous ==> clean)
    ensures var u := Update(o, f); var i := u.0.players.owner;
      && (u.0.state.minusArmed ==> i == o.players.owner)
      && (u.0.state.minusArmed && MINUS in f.keys[i] ==> PLUS !in f.keys[i] && (clean || MINUS !in o.state.previous))
      && (u.1 == REMOVE ==> i == o.players.owner && clean && MINUS !in f.keys[i] && PLUS !in f.keys[i])
  {
    var s, t := UpdateIsInput(o, f);
    InputArms(s, f.keys[Update(o, f).0.players.owner], Entries(f), clean);
  }

  predicate ArmedOk(o: Overlay, frames: seq<Frame>, k: nat)
    requires k <= |frames|
  {
    o.state.minusArmed && MINUS in o.state.previous ==> Clean(frames, k, o.players.owner)
  }

  lemma {:induction false} AlwaysArmedOk(trace: seq<Overlay>, frames: seq<Frame>, k: nat)
    requires IsHistory(trace, frames) && k < |trace|
    ensures ArmedOk(trace[k], frames, k)
  {
    if k > 0 {
      AlwaysArmedOk(trace, frames, k - 1);
      HistoryOk(trace, frames, k - 1);
      HistoryOk(trace, frames, k);
      assert Plays(trace[k - 1], frames[k - 1], trace[k]);
      UpdateArms(trace[k - 1], frames[k - 1], Clean(frames, k - 1, trace[k - 1].players.owner));
    }
  }

  /** Whatever the two controllers did before, a removal ends a Minus hold of the owner that never met Plus. */
  lemma RemovalNeedsCleanHold(trace: seq<Overlay>, frames: seq<Frame>, k: nat) returns (j: nat)
    requires IsHistory(trace, frames) && k < |frames| && Action(trace, frames, k) == REMOVE
    ensures j < k && CleanHold(frames, trace[k + 1].players.owner, j, k)
  {
    AlwaysArmedOk(trace, frames, k);
    HistoryOk(trace, frames, k);
    assert Plays(trace[k], frames[k], trace[k + 1]);
    UpdateArms(trace[k], frames[k], Clean(frames, k, trace[k].players.owner));
    j := CleanSince(frames, k, trace[k + 1].players.owner);
  }

  // --------------------------------------------------------------------------
  // Masking

  lemma FrameMasks(o: Overlay, f: Frame)
    requires OverlayOk(o)
    ensures var t := Update(o, f).0;
      && (Masked(o.state) && f.keys[t.players.owner] != {} ==> Masked(t.state))
      && (!t.state.visible && f.keys[t.players.owner] == {} ==> !Masked(t.state))
  {
    var s, t := UpdateIsInput(o, f);
    InputHides(s, f.keys[Update(o, f).0.players.owner], Entries(f));
  }

  /**
    * From the frame `c` that hides the menu the game sees no buttons for as long as the menu's owner
    * holds any.
    */
  lemma {:induction false} HiddenStaysMasked(trace: seq<Overlay>, frames: seq<Frame>, c: nat, k: nat)
    requires IsHistory(trace, frames) && c < k < |trace|
    requires trace[c].state.visible && !trace[c + 1].state.visible
    requires forall m | c < m < k :: frames[m].keys[trace[m + 1].players.owner] != {}
    ensures Masked(trace[k].state)
    decreases k
  {
    HistoryOk(trace, frames, k - 1);
    assert Plays(trace[k - 1], frames[k - 1], trace[k]);
    if c == k - 1 {
      OwnerHides(trace[c], frames[c]);
    } else {
      HiddenStaysMasked(trace, frames, c, k - 1);
      FrameMasks(trace[k - 1], frames[k - 1]);
    }
  }

  /** In the first hidden frame without keys the game sees its buttons again. */
  lemma UnmaskedWhenIdle(trace: seq<Overlay>, frames: seq<Frame>, k: nat)
    requires IsHistory(trace, frames) && k < |frames|
    requires !trace[k + 1].state.visible && frames[k].keys[trace[k + 1].players.owner] == {}
    ensures !Masked(trace[k + 1].state)
  {
    HistoryOk(trace, frames, k);
    assert Plays(trace[k], frames[k], trace[k + 1]);
    FrameMasks(trace[k], frames[k]);
  }

  // --------------------------------------------------------------------------
  // Requests

  /** A request names a slot, and a load also an entry of the list it was chosen from. */
  lemma RequestsAreInRange(o: Overlay, f: Frame)
    requires Selectable(o.state) && Update(o, f).1 != 0
    ensures var t, op := Update(o, f).0, Update(o, f).1;
      && 1 <= op <= 6 && t.box.op == op && t.box.seqno == t.state.seqno != o.state.seqno
      && (op == LOAD ==> t.state.selected < Entries(f) <= 640)
      && (op == LOAD || op == REMOVE ==>
            t.box.arg / 0x1_0000 == t.state.slot && t.box.arg % 0x1_0000 == t.state.selected)
      && (op == 4 ==> t.box.arg == t.state.slot)
      && (op == SHOW ==> t.box.arg == Row(t.state) < 640)
  {
  }

  /** While a request is unanswered only opening the menu issues another one. */
  lemma PendingHoldsRequests(o: Overlay, f: Frame)
    requires Selectable(o.state) && o.state.pending && f.answered != o.state.seqno
    ensures var t, op := Update(o, f).0, Update(o, f).1; op == 0 || (op == SHOW && t.state.visible && t.state.chordHeld)
  {
  }

  /**
    * A portal that has handled the previous request notices this one: the mailbox is alive, the number
    * is new, and no command from a menu showing the portal's own list is out of range.
    */
  lemma PortalNoticesRequest(o: Overlay, f: Frame, p: Portal, sent: int)
    requires Selectable(o.state) && Update(o, f).1 != 0
    requires p.store.requestSeq == o.state.seqno && p.store.heartbeat == o.box.heartbeat
    requires Entries(f) <= p.store.count
    ensures var box := Update(o, f).0.box;
      && Alive(p, Env(true, box, sent)) && box.seqno != p.store.requestSeq
      && Command(p, box.op, box.arg).1 != -4
  {
    RequestsAreInRange(o, f);
    NextBeat(p.store.heartbeat);
  }

  lemma NextBeat(h: u32)
    ensures Plus(h, 1) != h
  {
  }
}
