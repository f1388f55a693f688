/**
 The keyboard scan codes the input layer recognises. Every other key is
 `Other`, carrying its code.
 */
module Keyboard {

  datatype Scan = W | Up | S | Down | A | Left | D | Right | Space | Other(code: nat)
}

/**
 Input decoding and the input thread. Key presses are decoded into player
 key codes and queued; the input processor pops codes one at a time,
 tracks whether forward and backward are held, forwards each code to the
 player as a command, and stops at the end-of-input code.
 */
module Input {
  import Keyboard

  datatype PlayerKey =
    | None
    | ForwardPressed
    | ForwardReleased
    | BackwardPressed
    | BackwardReleased
    | Left
    | Right
    | Shoot
    | Eof

  /** Decodes a pressed key. W/Up, S/Down, A/Left, D/Right and Space have codes; every other key decodes to `None`. */
  function MapPlayerInput(k: Keyboard.Scan): (r: PlayerKey)
    ensures r == ForwardPressed <==> k == Keyboard.W || k == Keyboard.Up
    ensures r == BackwardPressed <==> k == Keyboard.S || k == Keyboard.Down
    ensures r == Left <==> k == Keyboard.A || k == Keyboard.Left
    ensures r == Right <==> k == Keyboard.D || k == Keyboard.Right
    ensures r == Shoot <==> k == Keyboard.Space
    ensures r == None <==> k.Other?
    ensures r != Eof && r != ForwardReleased && r != BackwardReleased
  {
    match k
    case W | Up => ForwardPressed
    case S | Down => BackwardPressed
    case A | Left => Left
    case D | Right => Right
    case Space => Shoot
    case Other(_) => None
  }

  /** Decodes a run of key presses, as the frame loop queues them. */
  function MapAll(keys: seq<Keyboard.Scan>): (r: seq<PlayerKey>)
    ensures |r| == |keys|
    ensures forall i :: 0 <= i < |keys| ==> r[i] == MapPlayerInput(keys[i])
  {
    if keys == [] then [] else [MapPlayerInput(keys[0])] + MapAll(keys[1..])
  }

  /** Whether forward and backward are currently held, as the input processor tracks them. */
  datatype Held = Held(forward: bool, backward: bool)

  /** The effect of one code on the held flags. */
  function Apply(h: Held, code: PlayerKey): (r: Held)
    ensures r.backward == h.backward || code == BackwardPressed || code == BackwardReleased
    ensures r.forward == h.forward || code == ForwardPressed || code == ForwardReleased
    ensures code == ForwardPressed ==> r.forward
    ensures code == ForwardReleased ==> !r.forward
    ensures code == BackwardPressed ==> r.backward
    ensures code == BackwardReleased ==> !r.backward
  {
    match code
    case ForwardPressed => h.(forward := true)
    case ForwardReleased => h.(forward := false)
    case BackwardPressed => h.(backward := true)
    case BackwardReleased => h.(backward := false)
    case _ => h
  }

  function ApplyAll(h: Held, codes: seq<PlayerKey>): (r: Held)
    decreases |codes|
  {
    if codes == [] then h else ApplyAll(Apply(h, codes[0]), codes[1..])
  }

  predicate IsForwardCode(c: PlayerKey) {
    c == ForwardPressed || c == ForwardReleased
  }

  predicate IsBackwardCode(c: PlayerKey) {
    c == BackwardPressed || c == BackwardReleased
  }

  /**
   Reference definition of the forward flag after a run of codes: the last
   forward code decides, and with none the flag keeps its value.
   */
  function LastForward(start: bool, codes: seq<PlayerKey>): (held: bool)
    decreases |codes|
  {
    if codes == [] then start
    else if IsForwardCode(codes[|codes| - 1]) then codes[|codes| - 1] == ForwardPressed
    else LastForward(start, codes[..|codes| - 1])
  }

  function LastBackward(start: bool, codes: seq<PlayerKey>): (held: bool)
    decreases |codes|
  {
    if codes == [] then start
    else if IsBackwardCode(codes[|codes| - 1]) then codes[|codes| - 1] == BackwardPressed
    else LastBackward(start, codes[..|codes| - 1])
  }

  lemma {:induction false} ApplyAllSnoc(h: Held, codes: seq<PlayerKey>, c: PlayerKey)
    ensures ApplyAll(h, codes + [c]) == Apply(ApplyAll(h, codes), c)
    decreases |codes|
  {
    if codes == [] {
      assert codes + [c] == [c];
    } else {
      assert (codes + [c])[1..] == codes[1..] + [c];
      ApplyAllSnoc(Apply(h, codes[0]), codes[1..], c);
    }
  }

  /** The flags after a run of codes are those of the last forward code and the last backward code. */
  lemma {:induction false} LastCodeWins(h: Held, codes: seq<PlayerKey>)
    ensures ApplyAll(h, codes) == Held(LastForward(h.forward, codes), LastBackward(h.backward, codes))
    decreases |codes|
  {
    if codes != [] {
      var n := |codes| - 1;
      assert codes == codes[..n] + [codes[n]];
      ApplyAllSnoc(h, codes[..n], codes[n]);
      LastCodeWins(h, codes[..n]);
    }
  }

  /**
   Decoded key presses never release a flag: once forward or backward is
   held it stays held, since no key decodes to a release code.
   */
  lemma {:induction false} PressesNeverRelease(h: Held, keys: seq<Keyboard.Scan>)
    ensures var r := ApplyAll(h, MapAll(keys)); (h.forward ==> r.forward) && (h.backward ==> r.backward)
    decreases |keys|
  {
    if keys != [] {
      var codes := MapAll(keys);
      assert codes[0] == MapPlayerInput(keys[0]);
      assert codes[1..] == MapAll(keys[1..]);
      PressesNeverRelease(Apply(h, codes[0]), keys[1..]);
    }
  }

  /** The call the input processor makes on the player for a code. */
  datatype Command = Stop | Move(distance: int) | Rotate(degrees: int) | Fire | Idle

  /** Which player call a code leads to; only the end-of-input code stops the processor. */
  function Forwarded(code: PlayerKey): (c: Command)
    ensures c == Stop <==> code == Eof
    ensures c.Move? <==> code == ForwardPressed || code == BackwardPressed
    ensures c.Move? ==> (c.distance > 0 <==> code == ForwardPressed)
    ensures c.Rotate? <==> code == Left || code == Right
    ensures c.Rotate? ==> (c.degrees > 0 <==> code == Left)
    ensures c == Fire <==> code == Shoot
    ensures c == Idle <==> code == None || code == ForwardReleased || code == BackwardReleased
  {
    match code
    case Eof => Stop
    case ForwardPressed => Move(30)
    case BackwardPressed => Move(-30)
    case ForwardReleased => Idle
    case BackwardReleased => Idle
    case Left => Rotate(10)
    case Right => Rotate(-10)
    case Shoot => Fire
    case None => Idle
  }

  function ForwardedAll(codes: seq<PlayerKey>): (r: seq<Command>)
    ensures |r| == |codes|
    ensures forall i :: 0 <= i < |codes| ==> r[i] == Forwarded(codes[i])
  {
    if codes == [] then [] else [Forwarded(codes[0])] + ForwardedAll(codes[1..])
  }

  class InputProcessor {
    var forwardDown: bool
    var backwardDown: bool

    constructor ()
      ensures !forwardDown && !backwardDown
    {
      forwardDown, backwardDown := false, false;
    }

    function HeldNow(): (h: Held)
      reads this
    {
      Held(forwardDown, backwardDown)
    }

    /** Handles one popped code: updates the held flags and says which player call, if any, follows. */
    method Step(code: PlayerKey) returns (cmd: Command)
      modifies this
      ensures cmd == Forwarded(code)
      ensures HeldNow() == Apply(old(HeldNow()), code)
    {
      match code {
        case Eof =>
          return Stop;
        case ForwardPressed =>
          forwardDown := true;
          cmd := Move(30);
        case BackwardPressed =>
          backwardDown := true;
          cmd := Move(-30);
        case ForwardReleased =>
          forwardDown := false;
          cmd := Idle;
        case BackwardReleased =>
          backwardDown := false;
          cmd := Idle;
        case Left =>
          cmd := Rotate(10);
        case Right =>
          cmd := Rotate(-10);
        case Shoot =>
          cmd := Fire;
        case None =>
          cmd := Idle;
      }
    }

    /**
     Pops and handles the queued codes in order until the end-of-input
     code, which is consumed and ends the processor. `consumed` codes were
     popped; `issued` are the player calls made for them.
     */
    method Run(codes: seq<PlayerKey>) returns (consumed: nat, issued: seq<Command>, stopped: bool)
      modifies this
      ensures consumed <= |codes|
      ensures stopped <==> Eof in codes
      ensures stopped ==> 0 < consumed && codes[consumed - 1] == Eof && Eof !in codes[..consumed - 1]
      ensures !stopped ==> consumed == |codes|
      ensures issued == ForwardedAll(codes[..consumed])
      ensures HeldNow() == ApplyAll(old(HeldNow()), codes[..consumed])
    {
      consumed, issued, stopped := 0, [], false;
      while consumed < |codes| && !stopped
        invariant consumed <= |codes|
        invariant !stopped ==> Eof !in codes[..consumed]
        invariant stopped ==> 0 < consumed && codes[consumed - 1] == Eof && Eof !in codes[..consumed - 1]
        invariant issued == ForwardedAll(codes[..consumed])
        invariant HeldNow() == ApplyAll(old(HeldNow()), codes[..consumed])
        decreases |codes| - consumed
      {
        var code := codes[consumed];
        var cmd := Step(code);
        assert codes[..consumed + 1] == codes[..consumed] + [code];
        ApplyAllSnoc(old(HeldNow()), codes[..consumed], code);
        issued := issued + [cmd];
        consumed := consumed + 1;
        stopped := cmd == Stop;
      }
      if !stopped {
        assert codes[..consumed] == codes;
      } else {
        assert codes == codes[..consumed - 1] + [Eof] + codes[consumed..];
      }
    }
  }
}
