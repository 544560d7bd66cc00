/**
 * The interaction controller of autocomplete.js: the state kept in the
 * `Autocomplete(settings)` closure and the functions that change it.
 * The lookup handler is outside the model: `Search` returns the request it
 * hands to the handler (query text and token), and each time the handler
 * answers, its caller invokes `Callback` with that token.
 */
module Autocomplete {
  import opened Common

  /** A suggestion: a raw string, a raw number, or a record with optional fields. */
  datatype Item =
    | Plain(s: string)
    | Num(n: int)
    | Entry(text: Option<string>, value: Option<string>, href: Option<string>, disabled: bool)

  /** What the handler passes to its callback: `false` or an array of items. */
  datatype Response = NoItems | Items(list: seq<Item>)

  /** One call of the handler: the query text and the token its callback carries. */
  datatype Request = Request(query: string, token: int)

  /** The element focus moves to when the input blurs (`relatedTarget`). */
  datatype Element = Element(hasHref: bool)
  datatype FocusEvent = FocusEvent(relatedTarget: Option<Element>)

  /**
   * What a key press does beyond the widget's own state: a handler call,
   * an `ac-select` notification (with the link the page then follows), or
   * a TypeError thrown out of the listener.
   */
  datatype Effect =
    | NoEffect
    | Dispatched(request: Request)
    | Selected(item: Item, navigateTo: Option<string>)
    | TypeError

  function RequestOf(effect: Effect): Option<Request> {
    if effect.Dispatched? then Some(effect.request) else None
  }

  /** `item._disabled` is defined and truthy. */
  predicate IsDisabled(item: Item) {
    item.Entry? && item.disabled
  }

  /** `item.href`; a raw string or number has none. */
  function HrefOf(item: Item): Option<string> {
    if item.Entry? then item.href else None
  }

  /**
   * The value `_selectItem` writes into the input: a record's `value` when it
   * has one; otherwise the raw string, the number's decimal text, or the
   * record's `text` ("undefined" when it is missing).
   */
  function CommitText(item: Item): (r: string)
    ensures item.Entry? && item.value.Some? ==> r == item.value.value
    ensures item.Entry? && item.value.None? ==> r == FieldText(item.text)
    ensures item.Plain? ==> r == item.s
    ensures item.Num? ==> r == DecimalText(item.n)
  {
    if item.Plain? then item.s
    else if item.Num? then DecimalText(item.n)
    else if item.value.None? then FieldText(item.text)
    else item.value.value
  }

  /** `_hide(e)` returns early when focus moves to an element with an href. */
  predicate KeepsOpen(e: Option<FocusEvent>) {
    e.Some? && e.value.relatedTarget.Some? && e.value.relatedTarget.value.hasHref
  }

  class Widget {
    const limit: nat
    const minInputLength: int
    /** The shared list element has the class "open". */
    var open: bool
    /** `_currentItems`; undefined until the first result set is installed. */
    var items: Option<seq<Item>>
    /** The "is-selected" class of each element of `_currentListEls`. */
    var marks: seq<bool>
    /** `_currentIndex`. */
    var index: int
    /** `lastInput !== false`: a search has opened the list for the input. */
    var lastInput: bool
    /** `lastCB`: the token of the latest search; undefined before the first. */
    var lastCB: Option<int>
    /** The attached input's `value`. */
    var inputValue: string

    /**
     * One element per current item, and the index is either -1 or the
     * position of a marked element: -1 <= index <= |items| - 1.
     */
    ghost predicate Valid()
      reads this
    {
      && (items.None? ==> marks == [] && index == -1)
      && (items.Some? ==> |marks| == |items.value|)
      && -1 <= index < |marks|
      && (index >= 0 ==> marks[index])
    }

    constructor (limit: nat, minInputLength: int, inputValue: string)
      ensures Valid()
      ensures this.limit == limit && this.minInputLength == minInputLength
      ensures this.inputValue == inputValue
      ensures !open && items == None && marks == [] && index == -1
      ensures !lastInput && lastCB == None
    {
      this.limit := limit;
      this.minInputLength := minInputLength;
      this.inputValue := inputValue;
      open := false;
      items := None;
      marks := [];
      index := -1;
      lastInput := false;
      lastCB := None;
    }

    /** The effect of a `_hide` that goes ahead; the input's value is not part of it. */
    twostate predicate Hidden()
      reads this
    {
      && !open && index == -1 && !lastInput
      && items == old(items) && marks == old(marks) && lastCB == old(lastCB)
    }

    /**
     * The effect of `_search` at clock reading `now`: a short input only
     * hides; otherwise the list opens for the input, `now` becomes the
     * latest token and the handler is called with the input's text. Neither
     * the index nor the current items change.
     */
    twostate predicate Searched(now: int, new request: Option<Request>)
      reads this
    {
      && inputValue == old(inputValue)
      && if |inputValue| < minInputLength then
           request == None && Hidden()
         else
           && request == Some(Request(inputValue, now))
           && open && lastInput && lastCB == Some(now)
           && items == old(items) && marks == old(marks) && index == old(index)
    }

    /** The effect of `_searchCallback(list)`. */
    twostate predicate Installed(list: seq<Item>)
      reads this
    {
      && items == Some(Truncate(list, limit))
      && |marks| == |items.value|
      && (forall j :: 0 <= j < |marks| ==> !marks[j])
      && index == -1
      && open == old(open) && lastInput == old(lastInput) && lastCB == old(lastCB)
      && inputValue == old(inputValue)
    }

    /** Everything but the index and the marks stays. */
    twostate predicate OnlySelectionChanged()
      reads this
    {
      && items == old(items) && open == old(open) && lastInput == old(lastInput)
      && lastCB == old(lastCB) && inputValue == old(inputValue)
      && |marks| == |old(marks)|
    }

    /** Up arrow: a no-op at -1; otherwise one step up, moving the mark along. */
    twostate predicate MovedUp()
      reads this
    {
      && OnlySelectionChanged()
      && (old(index) == -1 ==> index == -1 && marks == old(marks))
      && (0 <= old(index) < |old(marks)| ==>
            && index == old(index) - 1
            && !marks[old(index)]
            && (index >= 0 ==> marks[index])
            && forall j :: 0 <= j < |marks| && j != old(index) && j != index ==> marks[j] == old(marks)[j])
    }

    /** Down arrow over a result set: a no-op at the last index; otherwise one step down. */
    twostate predicate MovedDown()
      reads this
    {
      && OnlySelectionChanged()
      && (old(index) == |old(marks)| - 1 ==> index == old(index) && marks == old(marks))
      && (-1 <= old(index) < |old(marks)| - 1 ==>
            && index == old(index) + 1
            && marks[index]
            && (old(index) >= 0 ==> !marks[old(index)])
            && forall j :: 0 <= j < |marks| && j != old(index) && j != index ==> marks[j] == old(marks)[j])
    }

    /** The effect of `_selectItem(item)`. */
    twostate predicate Committed(item: Item, effect: Effect)
      reads this
    {
      if IsDisabled(item) then
        effect == NoEffect && unchanged(this)
      else
        && effect == Selected(item, HrefOf(item))
        && inputValue == CommitText(item)
        && Hidden()
    }

    /** The latest token's callback with a non-empty array is honoured. */
    predicate Accepts(token: int, response: Response)
      reads this
    {
      lastCB == Some(token) && response.Items? && |response.list| > 0
    }

    /** `_show(input)`. */
    method Show()
      requires Valid()
      modifies this
      ensures Valid()
      ensures open && lastInput
      ensures items == old(items) && marks == old(marks) && index == old(index)
      ensures lastCB == old(lastCB) && inputValue == old(inputValue)
    {
      lastInput := true;
      open := true;
    }

    /**
     * `_hide(e)`: unless focus is moving to a link, close the list, clear
     * the index and forget the input.
     */
    method Hide(e: Option<FocusEvent>)
      requires Valid()
      modifies this
      ensures Valid()
      ensures KeepsOpen(e) ==> unchanged(this)
      ensures !KeepsOpen(e) ==> Hidden() && inputValue == old(inputValue)
    {
      if e.Some? && e.value.relatedTarget.Some? && e.value.relatedTarget.value.hasHref {
        return;
      }
      open := false;
      index := -1;
      lastInput := false;
    }

    /** `_search(handler, input)` at clock reading `now`. */
    method Search(now: int) returns (request: Option<Request>)
      requires Valid()
      modifies this
      ensures Valid()
      ensures Searched(now, request)
    {
      if |inputValue| < minInputLength {
        Hide(None);
        return None;
      }
      Show();
      lastCB := Some(now);
      request := Some(Request(inputValue, now));
    }

    /** `_searchCallback(list)`: install the truncated list, unmarked, with no selection. */
    method SearchCallback(list: seq<Item>)
      requires Valid()
      modifies this
      ensures Valid()
      ensures Installed(list)
    {
      var kept := list;
      if |kept| > limit {
        kept := kept[..limit];
      }
      items := Some(kept);
      marks := seq(|kept|, _ => false);
      index := -1;
    }

    /**
     * The callback handed to the handler by the search that minted `token`:
     * a stale token, `false` or an empty array only hides.
     */
    method Callback(token: int, response: Response)
      requires Valid()
      modifies this
      ensures Valid()
      ensures old(Accepts(token, response)) ==> Installed(response.list)
      ensures !old(Accepts(token, response)) ==> Hidden() && inputValue == old(inputValue)
    {
      if Some(token) != lastCB || response.NoItems? || |response.list| == 0 {
        Hide(None);
        return;
      }
      SearchCallback(response.list);
    }

    /** `_selectItem(item, input)`. */
    method SelectItem(item: Item) returns (effect: Effect)
      requires Valid()
      modifies this
      ensures Valid()
      ensures Committed(item, effect)
    {
      if item.Entry? && item.disabled {
        return NoEffect;
      }
      if item.Plain? {
        inputValue := item.s;
      } else if item.Num? {
        inputValue := DecimalText(item.n);
      } else if item.value.None? {
        inputValue := FieldText(item.text);
      } else {
        inputValue := item.value.value;
      }
      effect := Selected(item, HrefOf(item));
      Hide(None);
    }

    /**
     * `_keyup(handler, input, event)`: search unless the event's key is a
     * navigation key. In this file `_keyup` is never a key-release listener:
     * it runs as the debounced `input` listener and is given the `input` event.
     */
    method Keyup(key: Key, now: int) returns (request: Option<Request>)
      requires Valid()
      modifies this
      ensures Valid()
      ensures !TriggersSearch(key) ==> request == None && unchanged(this)
      ensures TriggersSearch(key) ==> Searched(now, request)
    {
      if !TriggersSearch(key) {
        return None;
      }
      request := Search(now);
    }

    /**
     * `_keydown(handler, input, event)`. `prevented` records whether
     * `event.preventDefault()` was called.
     */
    method Keydown(key: Key, now: int) returns (prevented: bool, effect: Effect)
      requires Valid()
      modifies this
      ensures Valid()
      // ctrl and every other key: nothing at all
      ensures key.ctrl || key.code !in {38, 40, 9, 13, 27} ==>
                !prevented && effect == NoEffect && unchanged(this)
      // up
      ensures !key.ctrl && key.code == 38 ==> prevented && effect == NoEffect && MovedUp()
      // down: a search while the list is not open for the input, a TypeError
      // before any result set, otherwise one step down
      ensures !key.ctrl && key.code == 40 ==>
                && prevented
                && (!old(lastInput) ==>
                      (effect.NoEffect? || effect.Dispatched?) && Searched(now, RequestOf(effect)))
                && (old(lastInput) && old(items).None? ==> effect == TypeError && unchanged(this))
                && (old(lastInput) && old(items).Some? ==> effect == NoEffect && MovedDown())
      // tab and enter: nothing without a selection, otherwise commit the selected item
      ensures !key.ctrl && key.code in {9, 13} ==>
                && (old(index) == -1 ==> !prevented && effect == NoEffect && unchanged(this))
                && (old(index) >= 0 ==>
                      prevented && old(items).Some? && Committed(old(items).value[old(index)], effect))
      // escape: always hides, from any state
      ensures !key.ctrl && key.code == 27 ==>
                !prevented && effect == NoEffect && Hidden() && inputValue == old(inputValue)
    {
      prevented, effect := false, NoEffect;
      if key.ctrl || key.code == 17 {
        return;
      }
      if key.code == 38 {
        prevented := true;
        if index == -1 {
          return;
        }
        marks := marks[index := false];
        index := index - 1;
        if index == -1 {
          return;
        }
        marks := marks[index := true];
      } else if key.code == 40 {
        prevented := true;
        if !lastInput {
          var request := Search(now);
          if request.Some? {
            effect := Dispatched(request.value);
          }
          return;
        }
        if items.None? {
          // `_currentItems.length` on an undefined `_currentItems`
          effect := TypeError;
          return;
        }
        if index == |items.value| - 1 {
          return;
        }
        if index > -1 {
          marks := marks[index := false];
        }
        index := index + 1;
        marks := marks[index := true];
      } else if key.code == 9 || key.code == 13 {
        if index == -1 {
          return;
        }
        prevented := true;
        effect := SelectItem(items.value[index]);
      } else if key.code == 27 {
        Hide(None);
      }
    }
  }

  /**
   * `_debounce(func, delay, passFirst)`: the closure's single pending timer,
   * holding the arguments `func` will receive when the delay elapses.
   */
  class Debouncer<A> {
    const passFirst: seq<A>
    var pending: Option<seq<A>>

    /** An undefined `passFirst` becomes the empty array. */
    constructor (first: Option<seq<A>>)
      ensures passFirst == (if first.Some? then first.value else [])
      ensures pending == None
    {
      passFirst := if first.Some? then first.value else [];
      pending := None;
    }

    /** A call cancels whatever was pending and schedules `passFirst` followed by its own arguments. */
    method Call(args: seq<A>)
      modifies this
      ensures pending == Some(passFirst + args)
    {
      pending := Some(passFirst + args);
    }

    /** The delay elapses: the pending arguments reach `func`, and the slot empties. */
    method Elapse() returns (fired: Option<seq<A>>)
      modifies this
      ensures fired == old(pending)
      ensures pending == None
    {
      fired := pending;
      pending := None;
    }
  }

  /** Of several calls within the delay only the last reaches `func`, and only once. */
  method DebounceLastCallWins<A>(first: seq<A>, a: seq<A>, b: seq<A>)
    returns (fired: Option<seq<A>>, firedAgain: Option<seq<A>>)
    ensures fired == Some(first + b)
    ensures firedAgain == None
  {
    var d := new Debouncer<A>(Some(first));
    d.Call(a);
    d.Call(b);
    fired := d.Elapse();
    firedAgain := d.Elapse();
  }

  /**
   * Two searches on different clock readings: the first one's late answer
   * is not installed, and its `_hide` closes the list the second search
   * opened and forgets the input.
   */
  method StaleAnswerScenario(t1: int, t2: int, text: string, answer: seq<Item>)
    returns (items: Option<seq<Item>>, open: bool, lastInput: bool)
    requires t1 != t2 && |text| >= 3
    ensures items == None && !open && !lastInput
  {
    var w := new Widget(20, 3, text);
    var first := w.Search(t1);
    var second := w.Search(t2);
    w.Callback(t1, Items(answer));
    items, open, lastInput := w.items, w.open, w.lastInput;
  }

  /**
   * Two searches in the same millisecond share a token, so the first
   * search's answer is installed even though a newer search was issued.
   */
  method SameMillisecondScenario(now: int, text: string, answer: seq<Item>)
    returns (items: Option<seq<Item>>, open: bool)
    requires |text| >= 3 && answer != []
    ensures items == Some(Truncate(answer, 20)) && open
  {
    var w := new Widget(20, 3, text);
    var first := w.Search(now);
    var second := w.Search(now);
    w.Callback(now, Items(answer));
    items, open := w.items, w.open;
  }

  /**
   * Three answers with a limit of two: the first two are shown, in order.
   * The widget is built with `minInputLength` 2, since at the default of 3
   * the two-letter query "ap" would not search at all.
   */
  method LimitScenario(now: int) returns (items: Option<seq<Item>>, index: int)
    ensures items == Some([Plain("Apple"), Plain("Apricot")])
    ensures index == -1
  {
    var answer := [Plain("Apple"), Plain("Apricot"), Plain("Banana")];
    var w := new Widget(2, 2, "ap");
    var request := w.Search(now);
    w.Callback(now, Items(answer));
    assert Truncate(answer, 2) == answer[..2] == [Plain("Apple"), Plain("Apricot")];
    items, index := w.items, w.index;
  }

  /**
   * Search, answer, arrow down once (the list is open), enter: a record
   * with both `text` and `value` commits its `value`, and the list closes.
   */
  method CommitValueScenario(now: int)
    returns (written: string, effect: Effect, open: bool, index: int)
    ensures written == "F"
    ensures effect == Selected(Entry(Some("Foo"), Some("F"), None, false), None)
    ensures !open && index == -1
  {
    var foo := Entry(Some("Foo"), Some("F"), None, false);
    var w := new Widget(20, 3, "foo");
    var request := w.Search(now);
    w.Callback(now, Items([foo]));
    var prevented, moved := w.Keydown(Key(false, 40), now);
    prevented, effect := w.Keydown(Key(false, 13), now);
    written, open, index := w.inputValue, w.open, w.index;
  }
}
