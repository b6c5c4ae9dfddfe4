/** The overlay as the source writes it: statics, pads and text buffers updated in place. */
module OverlayMachine {
  import opened Words
  import opened HidSession
  import opened PortalSpec
  import opened Menu

  class OverlayMachine {
    var slot: SlotIndex
    var chordHeld: bool
    var minusArmed: bool
    var visible: bool
    var swallow: bool
    var previous: Keys
    var selected: nat
    var seqno: u32
    var page: nat
    var pending: bool
    var frames: u32
    const players: array<Keys>
    var owner: Player
    var box: Request

    ghost predicate Valid() {
      players.Length == 2
    }

    ghost function Input(): State
      reads this
    {
      State(slot, chordHeld, minusArmed, visible, swallow, previous, selected, seqno, page, pending, frames)
    }

    ghost function Now(): Overlay
      requires Valid()
      reads this, players
    {
      Overlay(Input(), Players(players[..], owner), box)
    }

    constructor ()
      ensures Valid() && fresh(players) && Now() == Off()
    {
      slot, chordHeld, minusArmed, visible, swallow, previous := 0, false, false, false, false, {};
      selected, seqno, page, pending, frames, owner, box := 0, 0, 0, false, 0, 0, Request(0, 0, 0, 0, 0, 0);
      players := new Keys[2](_ => {});
      new;
      assert players[..] == [{}, {}];
    }

    /** The direction keys of `menu_input`. */
    method Move(edge: Keys, n: nat)
      requires selected < n
      modifies this`selected
      ensures selected == Moved(old(selected), edge, n)
    {
      if UP in edge {
        selected := if selected > 0 then selected - 1 else n - 1;
      }
      if DOWN in edge {
        selected := (selected + 1) % n;
      }
      if LEFT in edge {
        selected := if selected >= 8 then selected - 8 else 0;
      }
      if RIGHT in edge {
        selected := if selected + 8 < n then selected + 8 else n - 1;
      }
    }

    /** The list keys of `menu_input`. */
    method Browse(edge: Keys, n: nat) returns (action: nat)
      modifies this`selected
      ensures (Input(), action) == Menu.Browse(old(Input()), edge, n)
    {
      if n > 0 {
        if selected >= n {
          selected := n - 1;
        }
        Move(edge, n);
        if A in edge {
          return LOAD;
        }
      }
      action := if page != selected / 8 * 8 then SHOW else 0;
    }

    /** The part of `menu_input` that a shown menu reaches. */
    method Shown(edge: Keys, before: Keys, n: nat) returns (action: nat)
      requires edge == previous - before
      modifies this`visible, this`minusArmed, this`slot, this`selected
      ensures (Input(), action) == Menu.Shown(old(Input()), edge, before, n)
    {
      if B in edge {
        visible, minusArmed := false, false;
        return 0;
      }
      if pending {
        minusArmed := false;
        return 0;
      }
      if C in edge {
        slot := (slot + 15) % 16;
        return 4;
      }
      if Z in edge {
        slot := (slot + 1) % 16;
        return 4;
      }
      if PLUS in previous {
        minusArmed := false;
      }
      if MINUS in edge && PLUS !in previous {
        minusArmed := true;
      }
      if MINUS in before && MINUS !in previous && minusArmed {
        minusArmed := false;
        return REMOVE;
      }
      if ONE in edge {
        return 5;
      }
      if TWO in edge {
        return 6;
      }
      action := Browse(edge, n);
    }

    /** `menu_input`. */
    method MenuInput(keys: Keys, n: nat) returns (action: nat)
      modifies this`previous, this`swallow, this`visible, this`chordHeld, this`minusArmed, this`slot, this`selected
      ensures (Input(), action) == Menu.Input(old(Input()), keys, n)
    {
      var before := previous;
      previous := keys;
      if keys == {} {
        swallow := false;
      }
      if Chord(keys) && !Chord(before) {
        visible := !visible;
        swallow, chordHeld, minusArmed := true, true, false;
        return if visible then SHOW else 0;
      }
      if chordHeld {
        if PLUS !in keys && MINUS !in keys {
          chordHeld := false;
        }
        return 0;
      }
      if !visible {
        minusArmed := false;
        return 0;
      }
      swallow := true;
      action := Shown(keys - before, before, n);
    }

    /** The first loop of `menu_input_players`: the first controller that completes the chord, else 2. */
    method Choose(keys: Pair) returns (chosen: nat)
      requires Valid()
      ensures chosen == match Chosen(Players(players[..], owner), keys) case None => 2 case Some(i) => i
    {
      chosen := 2;
      var i := 0;
      while i < 2
        invariant 0 <= i <= 2
        invariant chosen == if i > 0 && Edge(Players(players[..], owner), keys, 0) then 0
                            else if i > 1 && Edge(Players(players[..], owner), keys, 1) then 1 else 2
      {
        if Chord(keys[i]) && !Chord(players[i]) && chosen == 2 {
          chosen := i;
        }
        i := i + 1;
      }
    }

    /** `menu_input_players`. */
    method PlayersInput(keys: Pair, n: nat) returns (action: nat)
      requires Valid()
      modifies this`previous, this`swallow, this`visible, this`chordHeld, this`minusArmed, this`slot, this`selected,
        this`owner, players
      ensures (Input(), Players(players[..], owner), action)
              == Menu.PlayersInput(old(Input()), old(Players(players[..], owner)), keys, n)
    {
      var chosen := Choose(keys);
      if chosen < 2 && (!visible || chosen != owner) {
        owner := chosen;
        visible, previous, chordHeld, minusArmed := false, {}, false, false;
      }
      assert Input() == Before(old(Input()), old(Players(players[..], owner)), keys);
      assert owner == Menu.Owner(old(Input()), old(Players(players[..], owner)), keys);
      action := MenuInput(keys[owner], n);
      var i := 0;
      while i < 2
        invariant 0 <= i <= 2
        invariant forall j | 0 <= j < i :: players[j] == keys[j]
        modifies players
      {
        players[i] := keys[i];
        i := i + 1;
      }
      assert players[..] == keys;
    }

    /** `request`. */
    method MakeRequest(op: u32)
      requires Valid() && Selectable(Input())
      modifies this`page, this`seqno, this`box, this`pending, this`frames
      ensures (Input(), box) == Menu.Requested(old(Input()), old(box), op)
    {
      page := selected / 8 * 8;
      seqno := Plus(seqno, 1);
      if seqno == 0 {
        seqno := 1;
      }
      box := box.(op := op);
      box := box.(arg := if op == LOAD || op == REMOVE then slot * 0x1_0000 + selected else if op == 4 then slot
        else page);
      box := box.(key := 0x534b595a);
      box := box.(seqno := seqno);
      box := box.(magic := 0x4531324d);
      pending, frames := true, 0;
    }

    /** The waiting part of `update_menu`. */
    method Wait(answered: u32)
      modifies this`frames, this`pending
      ensures Input() == Waited(old(Input()), answered)
    {
      if pending {
        frames := Plus(frames, 1);
        if answered == seqno {
          pending := false;
        }
      }
    }

    /** `update_menu` after its snapshot was taken. */
    method UpdateMenu(f: Frame) returns (action: nat)
      requires Valid() && Selectable(Input())
      modifies this, players
      ensures (Now(), action) == Update(old(Now()), f)
    {
      box := box.(heartbeat := Plus(box.heartbeat, 1));
      var n := f.count;
      if n > 640 {
        n := 0;
      }
      Wait(f.answered);
      InputSelectable(Input(), Players(players[..], owner), f.keys, n);
      action := PlayersInput(f.keys, n);
      assert n == Menu.Entries(f);
      if action != 0 {
        MakeRequest(action);
      }
    }

    /** `menu_mask` on the first `n` bytes of a pad: only the button words are cleared, and only while masked. */
    method Mask(b: array<byte>, n: nat)
      requires n <= b.Length
      modifies b
      ensures b[..] == MaskedPad(old(b[..]), n, Masked(Input()))
    {
      if n < 2 || !(visible || swallow) {
        return;
      }
      b[0], b[1] := 0, 0;
      if n >= 50 && b[40] == 1 {
        b[48], b[49] := 0, 0;
      }
    }
  }

  /** The pad the game sees. */
  function MaskedPad(pad: seq<byte>, n: nat, masked: bool): (r: seq<byte>)
    requires n <= |pad|
    ensures |r| == |pad|
    ensures n >= 2 && masked ==> r[0] == 0 && r[1] == 0 && (n >= 50 && pad[40] == 1 ==> r[48] == 0 && r[49] == 0)
    ensures forall i | 0 <= i < |pad| && r[i] != pad[i] ::
          masked && i < n && (i < 2 || ((i == 48 || i == 49) && pad[40] == 1))
  {
    if n < 2 || !masked then pad
    else
      var q := pad[0 := 0][1 := 0];
      if n >= 50 && pad[40] == 1 then q[48 := 0][49 := 0] else q
  }

  // --------------------------------------------------------------------------
  // Error codes as text

  function Digit(d: nat): char
    requires d < 10
  {
    "0123456789"[d]
  }

  function Decimal(v: nat): string {
    (if v < 10 then "" else Decimal(v / 10)) + [Digit(v % 10)]
  }

  function DigitValue(c: char): nat {
    if '0' <= c <= '9' then c as int - '0' as int else 0
  }

  function Value(s: string): nat {
    if s == "" then 0 else 10 * Value(s[..|s| - 1]) + DigitValue(s[|s| - 1])
  }

  /** The signed value of an error word. */
  function Signed(code: u32): int {
    if code >= TWO31 then code - TWO32 else code
  }

  function Magnitude(code: u32): nat {
    if code >= TWO31 then TWO32 - code else code
  }

  function SignedValue(s: string): int {
    if s != "" && s[0] == '-' then 0 - Value(s[1..]) else Value(s)
  }

  const PREFIX := "ERROR "

  function ErrorText(code: u32): string {
    PREFIX + (if code >= TWO31 then "-" else "") + Decimal(Magnitude(code)) + ['\0']
  }

  lemma {:induction false} DecimalValue(v: nat)
    ensures Value(Decimal(v)) == v
    ensures forall c | c in Decimal(v) :: '0' <= c <= '9'
  {
    var s := Decimal(v);
    assert s[|s| - 1] == Digit(v % 10);
    assert s[..|s| - 1] == if v < 10 then "" else Decimal(v / 10);
    if v >= 10 {
      DecimalValue(v / 10);
      assert forall c | c in s :: c in s[..|s| - 1] || c == Digit(v % 10);
    }
  }

  function Pow10(n: nat): nat {
    if n == 0 then 1 else 10 * Pow10(n - 1)
  }

  lemma {:induction false} DecimalLength(v: nat, n: nat)
    requires n > 0 && v < Pow10(n)
    ensures 1 <= |Decimal(v)| <= n
  {
    if v >= 10 {
      DecimalLength(v / 10, n - 1);
    }
  }

  /** Reading the number back gives the error, signed; the text fits the 24 bytes the caller provides. */
  lemma ErrorReadsBack(code: u32)
    ensures var s := ErrorText(code);
      && |s| <= 18 && s[..6] == PREFIX && s[|s| - 1] == '\0'
      && Signed(code) == SignedValue(s[6..|s| - 1])
  {
    var d, sign := Decimal(Magnitude(code)), if code >= TWO31 then "-" else "";
    DecimalValue(Magnitude(code));
    TenDigits();
    DecimalLength(Magnitude(code), 10);
    assert d[0] in d;
    SignedDecimal(code >= TWO31, d);
    Middle(PREFIX, sign, d);
  }

  lemma Middle(prefix: string, sign: string, d: string)
    requires |prefix| == 6
    ensures var s := prefix + sign + d + ['\0'];
      s[..6] == prefix && s[|s| - 1] == '\0' && s[6..|s| - 1] == sign + d
  {
  }

  lemma SignedDecimal(negative: bool, d: string)
    requires d != "" && d[0] != '-'
    ensures SignedValue((if negative then "-" else "") + d) == if negative then 0 - Value(d) else Value(d)
  {
    assert "" + d == d && ("-" + d)[1..] == d;
  }

  lemma TenDigits()
    ensures Pow10(10) == 10_000_000_000
  {
    assert Pow10(5) == 100_000;
    assert Pow10(10) == 100_000 * Pow10(5);
  }

  /** The digits of `value`, lowest first. */
  method FillDigits(value: nat, digits: array<char>) returns (n: nat)
    requires value < TWO32 && digits.Length == 10
    modifies digits
    ensures n == |Decimal(value)| <= 10
    ensures forall j | 0 <= j < n :: digits[j] == Decimal(value)[n - 1 - j]
  {
    TenDigits();
    DecimalLength(value, 10);
    ghost var all := Decimal(value);
    n := 0;
    var v: nat := value;
    while n == 0 || v > 0
      invariant n <= |all|
      invariant v > 0 || n == 0 ==> n < |all| && Decimal(v) == all[..|all| - n]
      invariant v == 0 && n > 0 ==> n == |all|
      invariant forall j | 0 <= j < n :: digits[j] == all[|all| - 1 - j]
      decreases |all| - n
    {
      LastDigit(v);
      assert all[|all| - 1 - n] == Decimal(v)[|Decimal(v)| - 1];
      assert v >= 10 ==> all[..|all| - n - 1] == Decimal(v)[..|Decimal(v)| - 1];
      digits[n] := Digit(v % 10);
      n := n + 1;
      v := v / 10;
    }
  }

  lemma LastDigit(v: nat)
    ensures var s := Decimal(v);
      && |s| > 0 && s[|s| - 1] == Digit(v % 10)
      && (if v < 10 then |s| == 1 else s[..|s| - 1] == Decimal(v / 10))
  {
  }

  /** The digits copied out backwards after `at`. */
  method CopyBackwards(digits: array<char>, n: nat, out: array<char>, at: nat)
    requires n <= digits.Length && at + n <= out.Length && digits != out
    modifies out
    ensures out[..at] == old(out[..at])
    ensures forall j | at <= j < at + n :: out[j] == digits[n - 1 - (j - at)]
  {
    var k := n;
    while k > 0
      invariant 0 <= k <= n
      invariant out[..at] == old(out[..at])
      invariant forall j | at <= j < at + n - k :: out[j] == digits[n - 1 - (j - at)]
    {
      k := k - 1;
      out[at + n - 1 - k] := digits[k];
    }
  }

  /** `menu_error_code`: digits are produced lowest first and copied out backwards. */
  method WriteError(code: u32, out: array<char>) returns (i: nat)
    requires out.Length >= 24
    modifies out
    ensures i < out.Length && out[..i + 1] == ErrorText(code)
  {
    i := WriteSign(code, out);
    ghost var head := out[..i];
    var digits := new char[10];
    var n := FillDigits(Magnitude(code), digits);
    ghost var text := Decimal(Magnitude(code));
    CopyBackwards(digits, n, out, i);
    Appended(out, i, head, text);
    i := i + n;
    out[i] := '\0';
    assert out[..i + 1] == head + text + ['\0'];
  }

  lemma Appended(out: array<char>, i: nat, head: string, text: string)
    requires i + |text| <= out.Length && out[..i] == head
    requires forall j | i <= j < i + |text| :: out[j] == text[j - i]
    ensures out[..i + |text|] == head + text
  {
    assert out[..i + |text|] == out[..i] + out[i..i + |text|];
    assert out[i..i + |text|] == text;
  }

  method WriteSign(code: u32, out: array<char>) returns (i: nat)
    requires out.Length >= 24
    modifies out
    ensures i <= 7 && out[..i] == PREFIX + if code >= TWO31 then "-" else ""
  {
    i := 0;
    while i < 6
      invariant 0 <= i <= 6 && out[..i] == PREFIX[..i]
    {
      out[i] := PREFIX[i];
      i := i + 1;
    }
    if code >= TWO31 {
      out[i] := '-';
      i := i + 1;
    }
  }
}
