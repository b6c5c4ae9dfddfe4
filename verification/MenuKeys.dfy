/** Which key presses make the menu do what, over every history of both controllers. */
module MenuKeys {
  import opened Words
  import opened HidSession
  import opened PortalSpec
  import opened Menu

  // --------------------------------------------------------------------------
  // Presses

  predicate Pressed(frames: seq<Frame>, k: nat, i: Player, b: Button)
    requires k < |frames|
  {
    b in frames[k].keys[i] && b !in Held(frames, k, i)
  }

  predicate Released(frames: seq<Frame>, k: nat, i: Player, b: Button)
    requires k < |frames|
  {
    b !in frames[k].keys[i] && b in Held(frames, k, i)
  }

  /** This controller holds Plus and Minus now and did not hold both before. */
  predicate Completes(frames: seq<Frame>, k: nat, i: Player)
    requires k < |frames|
  {
    Chord(frames[k].keys[i]) && !Chord(Held(frames, k, i))
  }

  /** Plus or Minus has been down in every frame since this controller completed the chord. */
  predicate ChordDown(frames: seq<Frame>, k: nat, i: Player)
    requires k <= |frames|
  {
    && k > 0 && (PLUS in Held(frames, k, i) || MINUS in Held(frames, k, i))
    && (Completes(frames, k - 1, i) || ChordDown(frames, k - 1, i))
  }

  /** The controller that gets the menu in frame `k`, if its owner changes: the first to complete the chord. */
  predicate GetsMenu(o: Overlay, frames: seq<Frame>, k: nat, i: Player)
    requires k < |frames|
  {
    && Completes(frames, k, i) && (i == 1 ==> !Completes(frames, k, 0))
    && (!o.state.visible || i != o.players.owner)
  }

  predicate Changes(o: Overlay, frames: seq<Frame>, k: nat)
    requires k < |frames|
  {
    GetsMenu(o, frames, k, 0) || GetsMenu(o, frames, k, 1)
  }

  /** The menu is waiting for the answer to its request. */
  predicate Waiting(o: Overlay, f: Frame) {
    o.state.pending && f.answered != o.state.seqno
  }

  /** A frame in which the owner's keys reach the menu: it is shown, stays so, and waits for nothing. */
  predicate Acting(o: Overlay, frames: seq<Frame>, k: nat)
    requires k < |frames|
  {
    var i := o.players.owner;
    && o.state.visible && !Changes(o, frames, k) && !Completes(frames, k, i) && !ChordDown(frames, k, i)
    && !Pressed(frames, k, i, B) && !Waiting(o, frames[k])
  }

  // --------------------------------------------------------------------------
  // A frame is one input

  predicate Remembers(o: Overlay, frames: seq<Frame>, k: nat)
    requires k <= |frames|
  {
    OverlayOk(o) && forall i: Player :: o.players.previous[i] == Held(frames, k, i)
  }

  lemma ChangesIsTakeover(o: Overlay, frames: seq<Frame>, k: nat)
    requires k < |frames| && Remembers(o, frames, k)
    ensures TakesOver(o.state, o.players, frames[k].keys) <==> Changes(o, frames, k)
    ensures forall i: Player :: GetsMenu(o, frames, k, i) ==> Chosen(o.players, frames[k].keys) == Some(i)
  {
    assert forall i: Player :: Edge(o.players, frames[k].keys, i) <==> Completes(frames, k, i);
  }

  /** Without a change of owner a frame is `menu_input` on the owner's keys, and then perhaps a request. */
  lemma FrameIsInput(o: Overlay, frames: seq<Frame>, k: nat)
    requires k < |frames| && Remembers(o, frames, k) && !Changes(o, frames, k)
    ensures var f, u := frames[k], Update(o, frames[k]);
      var r := Input(Waited(o.state, f.answered), f.keys[o.players.owner], Entries(f));
      && u.0.players.owner == o.players.owner && u.1 == r.1
      && u.0.state == r.0.(page := u.0.state.page, seqno := u.0.state.seqno, pending := u.0.state.pending,
                           frames := u.0.state.frames)
  {
    ChangesIsTakeover(o, frames, k);
  }

  /** A change of owner shows the menu to its new owner. */
  lemma ChangeShows(o: Overlay, frames: seq<Frame>, k: nat, i: Player)
    requires k < |frames| && Remembers(o, frames, k) && GetsMenu(o, frames, k, i)
    ensures var u := Update(o, frames[k]);
      && u.0.players.owner == i && u.0.state.visible && u.0.state.chordHeld && !u.0.state.minusArmed && u.1 == SHOW
      && u.0.state.slot == o.state.slot && u.0.state.selected == o.state.selected
  {
    ChangesIsTakeover(o, frames, k);
  }

  // --------------------------------------------------------------------------
  // The chord

  lemma InputChord(s: State, keys: Keys, n: nat)
    ensures var t, edge := Input(s, keys, n).0, Chord(keys) && !Chord(s.previous);
      && (t.chordHeld <==> edge || (s.chordHeld && (PLUS in keys || MINUS in keys)))
      && (t.visible <==> if edge then !s.visible
                         else s.visible && (B in keys && B !in s.previous ==> s.chordHeld))
  {
  }

  lemma HeldNext(frames: seq<Frame>, k: nat, i: Player)
    requires k < |frames|
    ensures ChordDown(frames, k + 1, i) <==>
              && (PLUS in frames[k].keys[i] || MINUS in frames[k].keys[i])
              && (Completes(frames, k, i) || ChordDown(frames, k, i))
  {
  }

  lemma ChordFollows(o: Overlay, frames: seq<Frame>, k: nat)
    requires k < |frames| && Remembers(o, frames, k)
    requires o.state.chordHeld <==> ChordDown(frames, k, o.players.owner)
    ensures var t := Update(o, frames[k]).0; t.state.chordHeld <==> ChordDown(frames, k + 1, t.players.owner)
  {
    var i := Update(o, frames[k]).0.players.owner;
    HeldNext(frames, k, i);
    if GetsMenu(o, frames, k, 0) {
      ChangeShows(o, frames, k, 0);
    } else if GetsMenu(o, frames, k, 1) {
      ChangeShows(o, frames, k, 1);
    } else {
      FrameIsInput(o, frames, k);
      InputChord(Waited(o.state, frames[k].answered), frames[k].keys[i], Entries(frames[k]));
    }
  }

  /** In every history the menu waits for the chord to be let go exactly while its owner has not let it go. */
  lemma {:induction false} ChordIsHeld(trace: seq<Overlay>, frames: seq<Frame>, k: nat)
    requires IsHistory(trace, frames) && k < |trace|
    ensures Remembers(trace[k], frames, k)
    ensures trace[k].state.chordHeld <==> ChordDown(frames, k, trace[k].players.owner)
  {
    HistoryOk(trace, frames, k);
    if k > 0 {
      ChordIsHeld(trace, frames, k - 1);
      assert Plays(trace[k - 1], frames[k - 1], trace[k]);
      ChordFollows(trace[k - 1], frames, k - 1);
    }
  }

  // --------------------------------------------------------------------------
  // Showing and waiting

  /**
    * The menu appears or changes hands exactly when a controller that does not have it shown completes
    * the chord, and disappears exactly when its owner completes the chord or, having let it go, presses B.
    */
  lemma ShownExactly(trace: seq<Overlay>, frames: seq<Frame>, k: nat)
    requires IsHistory(trace, frames) && k < |frames|
    ensures var o, t, i := trace[k], trace[k + 1], trace[k].players.owner;
      if Changes(o, frames, k)
      then t.state.visible && GetsMenu(o, frames, k, t.players.owner) && Action(trace, frames, k) == SHOW
      else
        && t.players.owner == i
        && (t.state.visible <==>
              && o.state.visible && !Completes(frames, k, i)
              && (Pressed(frames, k, i, B) ==> ChordDown(frames, k, i)))
  {
    var o := trace[k];
    ChordIsHeld(trace, frames, k);
    assert Plays(o, frames[k], trace[k + 1]);
    if GetsMenu(o, frames, k, 0) {
      ChangeShows(o, frames, k, 0);
    } else if GetsMenu(o, frames, k, 1) {
      ChangeShows(o, frames, k, 1);
    } else {
      FrameIsInput(o, frames, k);
      InputChord(Waited(o.state, frames[k].answered), frames[k].keys[o.players.owner], Entries(frames[k]));
    }
  }

  /** A request is waited for until its number is answered, frame by frame; a new one starts the wait again. */
  lemma WaitsForAnswer(trace: seq<Overlay>, frames: seq<Frame>, k: nat)
    requires IsHistory(trace, frames) && k < |frames|
    ensures var o, t := trace[k], trace[k + 1];
      && (t.state.pending <==> Action(trace, frames, k) != 0 || Waiting(o, frames[k]))
      && (Action(trace, frames, k) == 0 ==> t.state.seqno == o.state.seqno)
      && t.state.frames == if Action(trace, frames, k) != 0 then 0
                           else if o.state.pending then Plus(o.state.frames, 1) else o.state.frames
  {
    assert Plays(trace[k], frames[k], trace[k + 1]);
  }

  // --------------------------------------------------------------------------
  // Keys of a shown menu

  /** C and Z choose a slot, and take precedence over every other key. */
  predicate ChoosesSlot(frames: seq<Frame>, k: nat, i: Player)
    requires k < |frames|
  {
    Pressed(frames, k, i, C) || Pressed(frames, k, i, Z)
  }

  predicate StaysArmed(trace: seq<Overlay>, frames: seq<Frame>, m: nat, i: Player)
    requires IsHistory(trace, frames) && m < |frames|
  {
    trace[m].players.owner == i && Acting(trace[m], frames, m) && Action(trace, frames, m) != REMOVE
  }

  /**
    * A press of Minus still counts before frame `k`: the keys have reached the menu since, Plus was not
    * down except in frames that chose a slot, and no removal was asked for. Choosing a slot hides a press.
    */
  predicate Armed(trace: seq<Overlay>, frames: seq<Frame>, k: nat)
    requires IsHistory(trace, frames) && k < |trace|
  {
    && k > 0
    && var i := trace[k - 1].players.owner;
    && StaysArmed(trace, frames, k - 1, i)
    && if ChoosesSlot(frames, k - 1, i) then Armed(trace, frames, k - 1)
       else
         && PLUS !in frames[k - 1].keys[i]
         && (Armed(trace, frames, k - 1) || Pressed(frames, k - 1, i, MINUS))
  }

  /** Minus goes up, Plus is not down, and a press of Minus still counts. */
  predicate AsksToRemove(trace: seq<Overlay>, frames: seq<Frame>, k: nat)
    requires IsHistory(trace, frames) && k < |frames|
  {
    var i := trace[k].players.owner;
    && !ChoosesSlot(frames, k, i) && Released(frames, k, i, MINUS) && PLUS !in frames[k].keys[i]
    && Armed(trace, frames, k)
  }

  /** Where the direction keys lead in a list of `n` figures: one up or down around its ends, eight left or right. */
  function Walked(selected: nat, frames: seq<Frame>, k: nat, i: Player, n: nat): int
    requires k < |frames| && n > 0
  {
    var a := if selected < n then selected else n - 1;
    var b := if Pressed(frames, k, i, UP) then (if a == 0 then n - 1 else a - 1) else a;
    var c := if Pressed(frames, k, i, DOWN) then (if b == n - 1 then 0 else b + 1) else b;
    var d := if Pressed(frames, k, i, LEFT) then (if c < 8 then 0 else c - 8) else c;
    if Pressed(frames, k, i, RIGHT) then (if d + 8 >= n then n - 1 else d + 8) else d
  }

  /** What an input makes of an armed removal. */
  predicate InputArmed(s: State, keys: Keys, t: State, action: nat) {
    var slots := (C in keys && C !in s.previous) || (Z in keys && Z !in s.previous);
    t.minusArmed <==>
      && action != REMOVE
      && if slots then s.minusArmed else PLUS !in keys && (s.minusArmed || (MINUS in keys && MINUS !in s.previous))
  }

  predicate Reaches(s: State, keys: Keys) {
    && s.visible && !(Chord(keys) && !Chord(s.previous)) && !s.chordHeld && !(B in keys && B !in s.previous)
    && !s.pending
  }

  lemma InputArmsExactly(s: State, keys: Keys, n: nat)
    ensures var r := Input(s, keys, n);
      if Reaches(s, keys) then InputArmed(s, keys, r.0, r.1) else r.1 != REMOVE && (InputOk(s) ==> !r.0.minusArmed)
    ensures var r := Input(s, keys, n);
      r.1 == REMOVE <==>
        && Reaches(s, keys) && !(C in keys && C !in s.previous) && !(Z in keys && Z !in s.previous)
        && MINUS in s.previous && MINUS !in keys && PLUS !in keys && s.minusArmed
  {
  }

  lemma ActingIsReached(trace: seq<Overlay>, frames: seq<Frame>, k: nat)
    requires IsHistory(trace, frames) && k < |frames| && !Changes(trace[k], frames, k)
    ensures var o, i := trace[k], trace[k].players.owner;
      && Reaches(Waited(o.state, frames[k].answered), frames[k].keys[i]) == Acting(o, frames, k)
      && o.state.previous == Held(frames, k, i)
  {
    ChordIsHeld(trace, frames, k);
  }

  /** The arming of one frame. */
  predicate Rearms(trace: seq<Overlay>, frames: seq<Frame>, k: nat, before: bool, after: bool)
    requires IsHistory(trace, frames) && k < |frames|
  {
    var i := trace[k].players.owner;
    after <==>
      && StaysArmed(trace, frames, k, i)
      && if ChoosesSlot(frames, k, i) then before
         else PLUS !in frames[k].keys[i] && (before || Pressed(frames, k, i, MINUS))
  }

  lemma FrameRearms(trace: seq<Overlay>, frames: seq<Frame>, k: nat)
    requires IsHistory(trace, frames) && k < |frames|
    ensures Rearms(trace, frames, k, trace[k].state.minusArmed, trace[k + 1].state.minusArmed)
  {
    var o, f := trace[k], frames[k];
    ChordIsHeld(trace, frames, k);
    assert Plays(o, f, trace[k + 1]);
    if GetsMenu(o, frames, k, 0) {
      ChangeShows(o, frames, k, 0);
    } else if GetsMenu(o, frames, k, 1) {
      ChangeShows(o, frames, k, 1);
    } else {
      FrameIsInput(o, frames, k);
      ActingIsReached(trace, frames, k);
      InputArmsExactly(Waited(o.state, f.answered), f.keys[o.players.owner], Entries(f));
    }
  }

  /** In every history a removal is armed exactly by a press of Minus that still counts. */
  lemma {:induction false} ArmedExactly(trace: seq<Overlay>, frames: seq<Frame>, k: nat)
    requires IsHistory(trace, frames) && k < |trace|
    ensures trace[k].state.minusArmed <==> Armed(trace, frames, k)
  {
    if k > 0 {
      var n := k - 1;
      ArmedExactly(trace, frames, n);
      FrameRearms(trace, frames, n);
      SameRearming(trace, frames, n, Armed(trace, frames, n), trace[n + 1].state.minusArmed,
        Armed(trace, frames, n + 1));
    }
  }

  lemma SameRearming(trace: seq<Overlay>, frames: seq<Frame>, k: nat, before: bool, a: bool, b: bool)
    requires IsHistory(trace, frames) && k < |frames|
    requires Rearms(trace, frames, k, before, a) && Rearms(trace, frames, k, before, b)
    ensures a == b
  {
  }

  // --------------------------------------------------------------------------
  // What the keys do

  /**
    * The action, the slot and the selected figure that new presses `e` lead to. `reached` says whether
    * they reach the menu, `opens` whether the chord opened it, `removes` whether a removal is asked for,
    * and `walked` where the direction keys lead.
    */
  predicate Effect(s: State, t: State, a: nat, reached: bool, opens: bool, removes: bool, e: Keys, walked: int,
      n: nat)
  {
    if !reached then t.slot == s.slot && t.selected == s.selected && a == if opens then SHOW else 0
    else if C in e || Z in e then
      && a == 4 && t.selected == s.selected
      && t.slot == if C in e then (s.slot + 15) % 16 else (s.slot + 1) % 16
    else
      && t.slot == s.slot
      && if removes then a == REMOVE && t.selected == s.selected
         else if ONE in e then a == 5 && t.selected == s.selected
         else if TWO in e then a == 6 && t.selected == s.selected
         else
           && t.selected == walked
           && a == if n > 0 && A in e then LOAD
                   else if s.page != t.selected - t.selected % 8 then SHOW else 0
  }

  /** The effect of a frame, in terms of the history. */
  predicate Acts(trace: seq<Overlay>, frames: seq<Frame>, k: nat)
    requires IsHistory(trace, frames) && k < |frames|
  {
    var o, t, i, n := trace[k], trace[k + 1], trace[k].players.owner, Entries(frames[k]);
    Effect(o.state, t.state, Action(trace, frames, k), Acting(o, frames, k),
      t.state.visible && Completes(frames, k, t.players.owner), AsksToRemove(trace, frames, k),
      frames[k].keys[i] - Held(frames, k, i),
      if n == 0 then o.state.selected else Walked(o.state.selected, frames, k, i, n), n)
  }

  /** The effect of one input, in terms of the menu's state. */
  predicate InputActs(s: State, keys: Keys, n: nat, t: State, a: nat) {
    Effect(s, t, a, Reaches(s, keys), t.visible && Chord(keys) && !Chord(s.previous),
      MINUS in s.previous && MINUS !in keys && PLUS !in keys && s.minusArmed, keys - s.previous,
      if n == 0 then s.selected else Moved(if s.selected >= n then n - 1 else s.selected, keys - s.previous, n), n)
  }

  lemma InputActsExactly(s: State, keys: Keys, n: nat)
    ensures InputActs(s, keys, n, Input(s, keys, n).0, Input(s, keys, n).1)
  {
  }

  lemma WalkedIsMoved(selected: nat, frames: seq<Frame>, k: nat, i: Player, n: nat)
    requires k < |frames| && n > 0
    ensures var e := frames[k].keys[i] - Held(frames, k, i);
      Walked(selected, frames, k, i, n) == Moved(if selected >= n then n - 1 else selected, e, n)
  {
    var a := if selected < n then selected else n - 1;
    var b := if Pressed(frames, k, i, UP) then (if a == 0 then n - 1 else a - 1) else a;
    OneDown(b, n);
  }

  lemma OneDown(a: nat, n: nat)
    requires a < n
    ensures (a + 1) % n == if a == n - 1 then 0 else a + 1
  {
  }

  /**
    * Over every history, exactly which keys make the menu do what: C and Z choose a slot, a released
    * Minus whose press still counts asks for a removal, ONE and TWO for a flush and a rescan, the
    * direction keys walk through the list, and A asks for the figure they lead to.
    */
  lemma KeysAct(trace: seq<Overlay>, frames: seq<Frame>, k: nat)
    requires IsHistory(trace, frames) && k < |frames|
    ensures Acts(trace, frames, k)
  {
    var o, f := trace[k], frames[k];
    ChordIsHeld(trace, frames, k);
    assert Plays(o, f, trace[k + 1]);
    if GetsMenu(o, frames, k, 0) {
      ChangeShows(o, frames, k, 0);
    } else if GetsMenu(o, frames, k, 1) {
      ChangeShows(o, frames, k, 1);
    } else {
      OwnersKeysAct(trace, frames, k);
    }
  }

  lemma AsksIsArmed(trace: seq<Overlay>, frames: seq<Frame>, k: nat)
    requires IsHistory(trace, frames) && k < |frames|
    ensures var i, now := trace[k].players.owner, frames[k].keys[trace[k].players.owner];
      !ChoosesSlot(frames, k, i) ==>
        (AsksToRemove(trace, frames, k) <==>
          MINUS in Held(frames, k, i) && MINUS !in now && PLUS !in now && trace[k].state.minusArmed)
  {
    ArmedExactly(trace, frames, k);
  }

  lemma OwnersKeysAct(trace: seq<Overlay>, frames: seq<Frame>, k: nat)
    requires IsHistory(trace, frames) && k < |frames| && !Changes(trace[k], frames, k)
    ensures Acts(trace, frames, k)
  {
    var o, f := trace[k], frames[k];
    var i, w, n := o.players.owner, Waited(o.state, f.answered), Entries(f);
    ActingIsReached(trace, frames, k);
    AsksIsArmed(trace, frames, k);
    assert InputActs(w, f.keys[i], n, trace[k + 1].state, Action(trace, frames, k))
      && trace[k + 1].players.owner == i by
    {
      ChordIsHeld(trace, frames, k);
      assert Plays(o, f, trace[k + 1]);
      FrameIsInput(o, frames, k);
      InputActsExactly(w, f.keys[i], n);
    }
    if n > 0 {
      WalkedIsMoved(o.state.selected, frames, k, i, n);
    }
    var walked := if n == 0 then o.state.selected else Walked(o.state.selected, frames, k, i, n);
    var t, e := trace[k + 1].state, f.keys[i] - Held(frames, k, i);
    SameEffect(w, o.state, t, Action(trace, frames, k), Acting(o, frames, k), t.visible && Completes(frames, k, i),
      MINUS in w.previous && MINUS !in f.keys[i] && PLUS !in f.keys[i] && w.minusArmed,
      AsksToRemove(trace, frames, k), e, walked, n);
  }

  /** The effect of keys depends only on these parts of the state. */
  lemma SameEffect(s: State, s': State, t: State, a: nat, reached: bool, opens: bool, removes: bool, removes': bool,
      e: Keys, walked: int, n: nat)
    requires s'.slot == s.slot && s'.selected == s.selected && s'.page == s.page
    requires Effect(s, t, a, reached, opens, removes, e, walked, n)
    requires reached && C !in e && Z !in e ==> removes' == removes
    ensures Effect(s', t, a, reached, opens, removes', e, walked, n)
  {
  }

  /** A load is asked for exactly by a new press of A that reaches a list with figures and no earlier key outranks. */
  lemma LoadsExactlyOnA(trace: seq<Overlay>, frames: seq<Frame>, k: nat)
    requires IsHistory(trace, frames) && k < |frames|
    ensures var i, t := trace[k].players.owner, trace[k + 1];
      var n := if frames[k].count <= 640 then frames[k].count else 0;
      (Action(trace, frames, k) == LOAD <==>
        && Acting(trace[k], frames, k) && n > 0 && Pressed(frames, k, i, A)
        && !ChoosesSlot(frames, k, i) && !AsksToRemove(trace, frames, k)
        && !Pressed(frames, k, i, ONE) && !Pressed(frames, k, i, TWO))
      && (Action(trace, frames, k) == LOAD ==>
            t.box.op == LOAD && t.box.arg == t.state.slot * 0x1_0000 + Walked(trace[k].state.selected, frames, k, i, n))
  {
    KeysAct(trace, frames, k);
    HistoryOk(trace, frames, k);
    assert Plays(trace[k], frames[k], trace[k + 1]);
  }

  /** A removal is asked for exactly when Minus goes up and its press still counts. */
  lemma RemovesExactlyOnRelease(trace: seq<Overlay>, frames: seq<Frame>, k: nat)
    requires IsHistory(trace, frames) && k < |frames|
    ensures Action(trace, frames, k) == REMOVE <==> Acting(trace[k], frames, k) && AsksToRemove(trace, frames, k)
  {
    KeysAct(trace, frames, k);
  }
}
