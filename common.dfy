/**
 * Definitions shared by both widget variants (autocomplete.js and
 * autocomplete-lite.js): optional values, keyboard events, the `_keyup`
 * filter, result truncation, the Factory argument guards and the string
 * conversions the DOM applies when a value is written into an input.
 */
module Common {

  datatype Option<+T> = None | Some(value: T)

  /** A keyboard event as the widget reads it: `event.ctrlKey` and `event.which`. */
  datatype Key = Key(ctrl: bool, code: int)

  /**
   * Every key code for which `_keyup` never starts a search:
   * control (17), tab, enter, shift, pause, caps lock, escape, page up/down,
   * end, home, the four arrows, insert, num lock and scroll lock.
   */
  const NonSearchCodes: set<int> :=
    {9, 13, 16, 17, 19, 20, 27, 33, 34, 35, 36, 37, 38, 39, 40, 45, 144, 145}

  /** F1 to F15. */
  predicate IsFunctionKey(code: int) {
    112 <= code <= 126
  }

  /**
   * The `_keyup` filter over the event it is given: ctrl-held and code 17
   * first, then the function keys, then the switch over navigation codes;
   * any other event searches.
   */
  function TriggersSearch(key: Key): (r: bool)
    ensures r <==> !key.ctrl && !IsFunctionKey(key.code) && key.code !in NonSearchCodes
  {
    if key.ctrl || key.code == 17 then false
    else if 112 <= key.code && key.code <= 126 then false
    else
      match key.code
      case 9 | 13 | 16 | 20 | 27 => false
      case 33 | 34 | 35 | 36 => false
      case 37 | 38 | 39 | 40 => false
      case 45 | 144 | 145 | 19 => false
      case _ => true
  }

  function Min(a: int, b: int): int {
    if a <= b then a else b
  }

  /**
   * `if (items.length > limit) items = items.slice(0, limit)`: the first
   * min(n, limit) items, in their original order.
   */
  function Truncate<T>(items: seq<T>, limit: nat): (r: seq<T>)
    ensures |r| == Min(|items|, limit)
    ensures forall i :: 0 <= i < |r| ==> r[i] == items[i]
    ensures |items| <= limit ==> r == items
  {
    if |items| > limit then items[..limit] else items
  }

  /** What `Factory(input, handler)` does before any wiring. */
  datatype Attach = ReturnedFalse | Threw(message: string) | Wired

  const MissingHandlerMessage :=
    "Autocomplete needs handler to return items based on a query: function(query, callback) {}"

  /**
   * The Factory guards: a falsy input returns `false` (checked first, so it
   * wins over a missing handler); an `undefined` handler throws; anything
   * else, including a `null` handler, goes on to wire the input.
   */
  function Factory(inputTruthy: bool, handlerDefined: bool): (r: Attach)
    ensures r == ReturnedFalse <==> !inputTruthy
    ensures r == Threw(MissingHandlerMessage) <==> inputTruthy && !handlerDefined
    ensures r == Wired <==> inputTruthy && handlerDefined
  {
    if !inputTruthy then ReturnedFalse
    else if !handlerDefined then Threw(MissingHandlerMessage)
    else Wired
  }

  /** The text an input shows after `input.value = undefined`. */
  const UndefinedText := "undefined"

  /** A possibly-undefined string field as the DOM converts it to text. */
  function FieldText(field: Option<string>): string {
    if field.Some? then field.value else UndefinedText
  }

  function DigitChar(d: int): char
    requires 0 <= d < 10
  {
    "0123456789"[d]
  }

  function Digits(n: nat): string
    decreases n
  {
    if n < 10 then [DigitChar(n)] else Digits(n / 10) + [DigitChar(n % 10)]
  }

  /** An integer item as the DOM converts it to text (decimal, leading '-'). */
  function DecimalText(n: int): string {
    if n < 0 then "-" + Digits(-n) else Digits(n)
  }
}
