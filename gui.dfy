/**
 * gui.py: the click and edit logic of the Button and TextBox widgets.
 * Where the mouse is and whether its left button is down are parameters:
 * `hover` stands for `collidepoint` of the scaled mouse position and
 * `pressed` for `mouse.get_pressed()[0]`.
 */
module Gui {
  import opened Base
  import opened Utf8

  /** The keys the program tells apart. */
  datatype Key = Escape | Backspace | Up | Down | Space | OtherKey

  /** A pygame event, as far as the program looks at it. */
  datatype Event =
    | Quit
    | KeyDown(key: Key, unicode: seq<CodePoint>)
    | OtherEvent

  /** The colour a widget is drawn in: `color`, `hover_color` or `click_color`. */
  datatype Shade = Plain | Hovered | Pressed

  /** A call `callback(callback_args)`: which callback, with which argument. */
  datatype Invocation = Invocation(callback: nat, args: Option<int>)

  /**
   * One `Button.draw` on the clicked flag: the new flag, the shade and
   * whether the callback is due (a release while hovering after a press).
   */
  function ButtonStep(clicked: bool, hover: bool, pressed: bool): (r: (bool, Shade, bool))
  {
    if hover then
      if pressed then (true, Pressed, false)
      else (false, Hovered, clicked)
    else (false, Plain, false)
  }

  /** The press/release edge detector, one frame: the flag records "pressed while hovering". */
  lemma ButtonStepEdges(clicked: bool, hover: bool, pressed: bool)
    ensures var (c, shade, fired) := ButtonStep(clicked, hover, pressed);
      && c == (hover && pressed)
      && (fired <==> clicked && hover && !pressed)
      && (!hover ==> !c && !fired && shade == Plain)
      && (shade == Pressed <==> hover && pressed)
  {
  }

  /** The clicked flag after a run of frames, each a (hover, pressed) pair. */
  function ClickedAfter(clicked: bool, frames: seq<(bool, bool)>): bool
    decreases |frames|
  {
    if frames == [] then clicked
    else ClickedAfter(ButtonStep(clicked, frames[0].0, frames[0].1).0, frames[1..])
  }

  /** Whether the callback is due on frame `i` of a run that starts with a fresh button. */
  predicate FiresAt(frames: seq<(bool, bool)>, i: nat)
    requires i < |frames|
  {
    ButtonStep(ClickedAfter(false, frames[..i]), frames[i].0, frames[i].1).2
  }

  lemma {:induction false} ClickedIsLastFrame(clicked: bool, frames: seq<(bool, bool)>)
    requires frames != []
    ensures ClickedAfter(clicked, frames) == (frames[|frames| - 1].0 && frames[|frames| - 1].1)
    decreases |frames|
  {
    if |frames| > 1 {
      ClickedIsLastFrame(ButtonStep(clicked, frames[0].0, frames[0].1).0, frames[1..]);
    }
  }

  /**
   * A fresh button fires exactly on a falling edge: frame i is a hover
   * without the button down and frame i - 1 was a hover with it down.
   */
  lemma FiresOnFallingEdge(frames: seq<(bool, bool)>, i: nat)
    requires i < |frames|
    ensures FiresAt(frames, i) <==> i > 0 && frames[i - 1] == (true, true) && frames[i] == (true, false)
  {
    if i > 0 {
      ClickedIsLastFrame(false, frames[..i]);
    }
  }

  class Button {
    var clicked: bool
    const callback: Option<nat>
    const callbackArgs: Option<int>

    constructor (callback: Option<nat>, callbackArgs: Option<int>)
      ensures !clicked && this.callback == callback && this.callbackArgs == callbackArgs
    {
      clicked := false;
      this.callback := callback;
      this.callbackArgs := callbackArgs;
    }

    /** `on_click_func`: calls the callback with its argument when one is set. */
    method OnClickFunc() returns (call: Option<Invocation>)
      ensures call.Some? <==> callback.Some?
      ensures call.Some? ==> call.value == Invocation(callback.value, callbackArgs)
    {
      call := None;
      if callback.Some? {
        call := Some(Invocation(callback.value, callbackArgs));
      }
    }

    /** `draw`: the shade it is drawn in and the callback made, if any. */
    method Draw(hover: bool, pressed: bool) returns (shade: Shade, call: Option<Invocation>)
      modifies this
      ensures var (c, s, fired) := ButtonStep(old(clicked), hover, pressed);
        && clicked == c && shade == s
        && call == (if fired && callback.Some? then Some(Invocation(callback.value, callbackArgs)) else None)
    {
      shade, call := Plain, None;
      if hover {
        shade := Hovered;
        if pressed {
          if !clicked {
            clicked := true;
          }
          shade := Pressed;
        } else {
          if clicked {
            clicked := false;
            call := OnClickFunc();
          }
        }
      } else {
        clicked := false;
      }
    }
  }

  /** A press inside selects the box, a press outside deselects it, no press leaves it. */
  function Select(selected: bool, hover: bool, pressed: bool): (r: bool)
  {
    if pressed then hover else selected
  }

  /**
   * The text after one `TextBox.draw`: only a KEYDOWN reaching a selected box
   * edits it; Backspace drops the last character, any other key appends its
   * `unicode` while the text is shorter than `maxChars`.
   */
  function Edit(text: seq<CodePoint>, maxChars: int, selected: bool, event: Option<Event>): (r: seq<CodePoint>)
  {
    if selected && event.Some? && event.value.KeyDown? then
      if event.value.key == Backspace then
        if text == [] then [] else text[..|text| - 1]
      else if |text| < maxChars then text + event.value.unicode
      else text
    else text
  }

  lemma SelectCases(selected: bool, hover: bool, pressed: bool)
    ensures pressed && hover ==> Select(selected, hover, pressed)
    ensures pressed && !hover ==> !Select(selected, hover, pressed)
    ensures !pressed ==> Select(selected, hover, pressed) == selected
  {
  }

  /**
   * The text changes only through a KEYDOWN on a selected box, and by one
   * dropped last character or one appended `unicode`.
   */
  lemma EditCases(text: seq<CodePoint>, maxChars: int, selected: bool, event: Option<Event>)
    ensures var r := Edit(text, maxChars, selected, event);
      && (r != text ==> selected && event.Some? && event.value.KeyDown?)
      && (selected && event.Some? && event.value.KeyDown? && event.value.key == Backspace ==>
            (text == [] ==> r == []) && (text != [] ==> r + [text[|text| - 1]] == text))
      && (selected && event.Some? && event.value.KeyDown? && event.value.key != Backspace ==>
            r == if |text| < maxChars then text + event.value.unicode else text)
  {
  }

  /** Keys that type at most one character keep the text within `maxChars`. */
  lemma EditKeepsBound(text: seq<CodePoint>, maxChars: int, selected: bool, event: Option<Event>)
    requires |text| <= maxChars
    requires event.Some? && event.value.KeyDown? ==> |event.value.unicode| <= 1
    ensures |Edit(text, maxChars, selected, event)| <= maxChars
  {
  }

  /** A key that types while there is room is undone by a Backspace. */
  lemma BackspaceUndoesTyping(text: seq<CodePoint>, maxChars: int, k: Key, c: CodePoint)
    requires k != Backspace && |text| < maxChars
    ensures Edit(Edit(text, maxChars, true, Some(KeyDown(k, [c]))), maxChars, true, Some(KeyDown(Backspace, []))) == text
  {
    assert (text + [c])[..|text|] == text;
  }

  class TextBox {
    var text: seq<CodePoint>
    const maxChars: int
    var selected: bool

    constructor (text: seq<CodePoint>, maxChars: int)
      ensures this.text == text && this.maxChars == maxChars && !selected
    {
      this.text := text;
      this.maxChars := maxChars;
      selected := false;
    }

    /** `draw` with the frame's key event: selection first, then the edit, then the shade. */
    method Draw(hover: bool, pressed: bool, event: Option<Event>) returns (shade: Shade)
      modifies this
      ensures selected == Select(old(selected), hover, pressed)
      ensures text == Edit(old(text), maxChars, selected, event)
      ensures shade == if selected then Pressed else if hover then Hovered else Plain
    {
      shade := Plain;
      if hover {
        shade := Hovered;
        if pressed {
          selected := true;
        }
      } else {
        if pressed {
          selected := false;
        }
      }
      if selected && event.Some? {
        if event.value.KeyDown? {
          if event.value.key == Backspace {
            text := if text == [] then [] else text[..|text| - 1];
          } else if |text| < maxChars {
            text := text + event.value.unicode;
          }
        }
      }
      if selected {
        shade := Pressed;
      }
    }
  }
}
