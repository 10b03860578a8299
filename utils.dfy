/**
 * The helpers of shared/utils.js: `respond`, the classification of an ajax
 * reply, `guid`, the configuration dictionary, `extend`'s parent check and
 * member copy, and the event listener lists that `extend` installs.
 */
module Utils {
  import opened Values

  // ---------------------------------------------------------------- respond

  /** What the caller passed as `callback`. */
  datatype CallbackArg = Undefined | NotAFunction | AFunction

  /** What `respond` does: throw, call the callback with (error, result), or nothing. */
  datatype Responded<T> = Threw(message: string) | Called(error: Option<string>, result: Option<T>) | NotCalled

  /** `respond(callback, error, result)`; the result is nulled whenever there is an error. */
  function Respond<T>(callback: CallbackArg, error: Option<string>, result: Option<T>): (r: Responded<T>)
    ensures r.Threw? <==> callback.NotAFunction?
    ensures r.Threw? ==> r.message == "Callback is not a function"
    ensures r.NotCalled? <==> callback.Undefined?
    ensures r.Called? ==> r.error == error
    ensures r.Called? && error.Some? ==> r.result.None?
    ensures r.Called? && error.None? ==> r.result == result
  {
    match callback
    case NotAFunction => Threw("Callback is not a function")
    case Undefined => NotCalled
    case AFunction => Called(error, if error.Some? then None else result)
  }

  // ------------------------------------------------------------------- ajax

  /** The body of a reply once `JSON.parse` has run on it (the parser itself is not modelled). */
  datatype Parsed =
    | NotJson                                  // JSON.parse threw
    | JsonNull                                 // the text was `null`
    | JsonObject(body: Row, errorMessage: Option<string>)
      // the parsed object; errorMessage is Some(m) when its `error` member is truthy

  /** What the callback receives on success: the raw text, the parsed object, or the parsed null. */
  datatype Payload = RawText(text: string) | Json(body: Row) | NullJson

  /**
   * The `readyState === 4` branch of `ajax`, as a function of the status,
   * the status text, the raw body and what parsing the body gives.
   */
  function ClassifyReply(status: int, statusText: string, responseText: string, parsed: Parsed): (r: Outcome<Payload>)
    ensures status == 0 ==> r == Failure("Server is not responding")
    ensures status == 200 && parsed.NotJson? ==> r == Success(RawText(responseText))
    ensures status == 200 && parsed.JsonNull? ==> r == Success(NullJson)
    ensures status == 200 && parsed.JsonObject? && parsed.errorMessage.Some? ==> r == Failure(parsed.errorMessage.value)
    ensures status == 200 && parsed.JsonObject? && parsed.errorMessage.None? ==> r == Success(Json(parsed.body))
    ensures status != 0 && status != 200 ==> r == Failure(statusText + " : " + responseText)
    ensures !r.NoCallback?
  {
    if status == 0 then Failure("Server is not responding")
    else if status == 200 then
      match parsed
      case NotJson => Success(RawText(responseText))
      // `null.error` throws inside the try block; the catch passes the parsed null back
      case JsonNull => Success(NullJson)
      case JsonObject(body, m) => if m.Some? then Failure(m.value) else Success(Json(body))
    else Failure(statusText + " : " + responseText)
  }

  // ------------------------------------------------------------------- guid

  /** `Math.random() * 0x10000` rounded down: one draw of the random generator. */
  type Draw = d: int | 0 <= d < 0x10000

  function HexDigit(d: nat): char
    requires d < 16
  {
    "0123456789abcdef"[d]
  }

  /** `n.toString(16)` */
  function HexString(n: nat): string
    decreases n
  {
    if n < 16 then [HexDigit(n)] else HexString(n / 16) + [HexDigit(n % 16)]
  }

  /** `getRandomString()`: `(((1 + r) * 0x10000) | 0).toString(16).substring(1)` */
  function RandomPiece(d: Draw): string {
    var h := HexString(0x10000 + d);
    if |h| == 0 then "" else h[1..]
  }

  function UpperChar(c: char): char {
    if 'a' <= c <= 'z' then (c as int - 32) as char else c
  }

  /** `s.toUpperCase()` on the characters a guid can contain. */
  function Upper(s: string): (r: string)
    ensures |r| == |s|
    ensures forall i :: 0 <= i < |s| ==> r[i] == UpperChar(s[i])
  {
    seq(|s|, i requires 0 <= i < |s| => UpperChar(s[i]))
  }

  /** `guid()` when the generator's draws from position `k` on are `rng(k), rng(k + 1), ...` */
  function Guid(rng: nat -> Draw, k: nat): string {
    Upper(RandomPiece(rng(k)) + RandomPiece(rng(k + 1)) + "-" + RandomPiece(rng(k + 2)) + "-" +
          RandomPiece(rng(k + 3)) + "-" + RandomPiece(rng(k + 4)) + "-" +
          RandomPiece(rng(k + 5)) + RandomPiece(rng(k + 6)) + RandomPiece(rng(k + 7)))
  }

  predicate IsHexLower(c: char) {
    c in "0123456789abcdef"
  }

  predicate IsHexUpper(c: char) {
    c in "0123456789ABCDEF"
  }

  predicate IsDash(i: int) {
    i == 8 || i == 13 || i == 18 || i == 23
  }

  /** 36 characters: uppercase hex digits in blocks of 8-4-4-4-12 separated by dashes. */
  predicate GuidFormat(g: string) {
    |g| == 36 &&
    forall i :: 0 <= i < 36 ==> if IsDash(i) then g[i] == '-' else IsHexUpper(g[i])
  }

  lemma HexDigitIsHex(d: nat)
    requires d < 16
    ensures IsHexLower(HexDigit(d))
  {
  }

  /**
   * Adding 0x10000 before printing makes `toString(16)` print five digits
   * with a leading 1, so dropping that character leaves exactly four.
   */
  lemma {:induction false} RandomPieceShape(d: Draw)
    ensures |RandomPiece(d)| == 4
    ensures forall i :: 0 <= i < 4 ==> IsHexLower(RandomPiece(d)[i])
  {
    var n := 0x10000 + d;
    var n1, n2, n3, n4 := n / 16, n / 256, n / 4096, n / 65536;
    assert n4 == 1;
    assert n3 / 16 == n4 && n2 / 16 == n3 && n1 / 16 == n2 && n / 16 == n1;
    assert HexString(n4) == "1";
    assert HexString(n3) == "1" + [HexDigit(n3 % 16)];
    assert HexString(n2) == HexString(n3) + [HexDigit(n2 % 16)];
    assert HexString(n1) == HexString(n2) + [HexDigit(n1 % 16)];
    var h := HexString(n);
    assert h == HexString(n1) + [HexDigit(n % 16)];
    assert h == ['1', HexDigit(n3 % 16), HexDigit(n2 % 16), HexDigit(n1 % 16), HexDigit(n % 16)];
    HexDigitIsHex(n3 % 16);
    HexDigitIsHex(n2 % 16);
    HexDigitIsHex(n1 % 16);
    HexDigitIsHex(n % 16);
  }

  lemma UpperOfHex(c: char)
    requires IsHexLower(c)
    ensures IsHexUpper(UpperChar(c))
  {
  }

  /** The characters so far sit where the layout wants them: dashes at the dash positions, hex digits elsewhere. */
  predicate LayoutSoFar(s: string) {
    forall i :: 0 <= i < |s| ==> if IsDash(i) then s[i] == '-' else IsHexLower(s[i])
  }

  /** Four more hex digits, none of them at a dash position. */
  lemma AppendPiece(s: string, d: Draw)
    requires LayoutSoFar(s)
    requires forall i :: |s| <= i < |s| + 4 ==> !IsDash(i)
    ensures |s + RandomPiece(d)| == |s| + 4 && LayoutSoFar(s + RandomPiece(d))
  {
    RandomPieceShape(d);
    var t := s + RandomPiece(d);
    forall i | |s| <= i < |t| ensures IsHexLower(t[i]) {
      assert t[i] == RandomPiece(d)[i - |s|];
    }
  }

  lemma AppendDash(s: string)
    requires LayoutSoFar(s) && IsDash(|s|)
    ensures LayoutSoFar(s + "-")
  {
  }

  /** Every guid has the 8-4-4-4-12 uppercase hex layout, whatever the generator draws. */
  lemma GuidHasFormat(rng: nat -> Draw, k: nat)
    ensures GuidFormat(Guid(rng, k))
  {
    var s0: string := [];
    AppendPiece(s0, rng(k));
    var s1 := s0 + RandomPiece(rng(k));
    assert s1 == RandomPiece(rng(k));
    AppendPiece(s1, rng(k + 1));
    var s2 := s1 + RandomPiece(rng(k + 1));
    AppendDash(s2);
    AppendPiece(s2 + "-", rng(k + 2));
    var s3 := s2 + "-" + RandomPiece(rng(k + 2));
    AppendDash(s3);
    AppendPiece(s3 + "-", rng(k + 3));
    var s4 := s3 + "-" + RandomPiece(rng(k + 3));
    AppendDash(s4);
    AppendPiece(s4 + "-", rng(k + 4));
    var s5 := s4 + "-" + RandomPiece(rng(k + 4));
    AppendDash(s5);
    AppendPiece(s5 + "-", rng(k + 5));
    var s6 := s5 + "-" + RandomPiece(rng(k + 5));
    AppendPiece(s6, rng(k + 6));
    var s7 := s6 + RandomPiece(rng(k + 6));
    AppendPiece(s7, rng(k + 7));
    var s := s7 + RandomPiece(rng(k + 7));
    assert Guid(rng, k) == Upper(s);
    forall i | 0 <= i < 36 && !IsDash(i) ensures IsHexUpper(Upper(s)[i]) {
      UpperOfHex(s[i]);
    }
  }

  // ----------------------------------------------------------------- config

  /** `utils.config`: a shared dictionary with `get` and `set`. */
  class Config {
    var values: map<string, Value>

    constructor ()
      ensures values == map[]
    {
      values := map[];
    }

    /** `config.set(key, value)` stores the value and returns it. */
    method Set(key: string, value: Value) returns (r: Value)
      modifies this
      ensures values == old(values)[key := value]
      ensures r == value
    {
      values := values[key := value];
      r := value;
    }

    /** `config.get(key)`: the stored value (`undefined` if none); a falsy one is reported in the log. */
    method Get(key: string) returns (r: Option<Value>, warned: bool)
      ensures r.Some? <==> key in values
      ensures r.Some? ==> r.value == values[key]
      ensures warned <==> !(key in values && Truthy(values[key]))
    {
      r := Field(values, key);
      warned := !(r.Some? && Truthy(r.value));
    }
  }

  /** `config.set(key, value)` then `config.get(key)`: the value comes back, and it is reported only if falsy. */
  method SetThenGet(config: Config, key: string, value: Value) returns (got: Option<Value>, warned: bool)
    modifies config
    ensures got == Some(value)
    ensures warned <==> !Truthy(value)
    ensures config.values == old(config.values)[key := value]
  {
    var stored := config.Set(key, value);
    got, warned := config.Get(key);
  }

  // ----------------------------------------------------------------- extend

  /**
   * A member of a prototype: one given in `def`, one that `copyMembers`
   * installs, or `superclass`, which holds the parent's prototype.
   */
  datatype Member = Defined(id: nat) | InitEvents | On | FireEvent | Superclass(members: map<string, Member>)

  /**
   * The `Parent` argument of `extend`: missing (falsy), a constructor
   * function, known by the members its prototype offers, or a truthy value
   * that is not a function.
   */
  datatype Parent = Missing | Constructor(members: map<string, Member>) | NotAFunction

  /**
   * The prototype `extend` builds: its own members, and those it inherits
   * through `new Parent(__extending)`, which for a constructor built by
   * `extend` returns at once and so adds no own member.
   */
  datatype Prototype = Prototype(own: map<string, Member>, inherited: map<string, Member>)

  /** What a lookup on an instance finds: an own member first, then an inherited one. */
  function Visible(p: Prototype): map<string, Member> {
    p.inherited + p.own
  }

  const Installed: set<string> := {"initEvents", "on", "fireEvent"}

  /**
   * `extend(Parent, def)`: a missing parent is refused. A constructor parent
   * gives a prototype that inherits its members and holds `superclass`; any
   * other parent gives a fresh prototype. The members of `def` (none when it
   * is missing) are then copied over it, and initEvents, on and fireEvent
   * last, so each of those replaces a member of `def` with its name.
   */
  function Extend(parent: Parent, def: Option<map<string, nat>>): (r: Result<Prototype>)
    ensures parent.Missing? <==> r.Err?
    ensures r.Err? ==> r.message == "Extending undefined parent."
    ensures r.Ok? ==> r.value.inherited == if parent.Constructor? then parent.members else map[]
    ensures r.Ok? ==>
              r.value.own.Keys == def.GetOr(map[]).Keys + Installed + (if parent.Constructor? then {"superclass"} else {})
    ensures r.Ok? ==> r.value.own["initEvents"] == InitEvents && r.value.own["on"] == On && r.value.own["fireEvent"] == FireEvent
    ensures r.Ok? ==> forall k :: k in def.GetOr(map[]) && k !in Installed ==>
                        r.value.own[k] == Defined(def.GetOr(map[])[k])
    ensures r.Ok? && parent.Constructor? && "superclass" !in def.GetOr(map[]) ==>
              r.value.own["superclass"] == Superclass(parent.members)
  {
    match parent
    case Missing => Err("Extending undefined parent.")
    case Constructor(members) => Ok(Prototype(CopyMembers(map["superclass" := Superclass(members)], def), members))
    case NotAFunction => Ok(Prototype(CopyMembers(map[], def), map[]))
  }

  /** `copyMembers(obj, def)` on an object holding `obj`: def's members, then the three installed ones. */
  function CopyMembers(obj: map<string, Member>, def: Option<map<string, nat>>): map<string, Member> {
    var members := def.GetOr(map[]);
    var copied := obj + map k | k in members :: Defined(members[k]);
    copied["initEvents" := InitEvents]["on" := On]["fireEvent" := FireEvent]
  }

  /**
   * Two levels of `extend`, as the store variants use it (a subclass of the
   * row store, itself a subclass): an instance of the subclass sees the
   * members of the middle class's `def` that its own `def` does not
   * redefine, and its `superclass` is the middle prototype, through which
   * `this.superclass.initialize` reaches the middle class's `initialize`.
   */
  lemma ExtendTwice(base: map<string, Member>, mid: map<string, nat>, sub: map<string, nat>)
    requires "superclass" !in sub
    ensures var m := Extend(Constructor(base), Some(mid));
            m.Ok? &&
            var s := Extend(Constructor(Visible(m.value)), Some(sub));
            s.Ok? &&
            Visible(s.value)["superclass"] == Superclass(Visible(m.value)) &&
            (forall k :: k in mid && k !in sub && k !in Installed && k != "superclass" ==>
               Visible(s.value)[k] == Defined(mid[k])) &&
            (forall k :: k in base && k !in mid && k !in sub && k !in Installed && k != "superclass" ==>
               Visible(s.value)[k] == base[k])
  {
    var m := Extend(Constructor(base), Some(mid));
    var s := Extend(Constructor(Visible(m.value)), Some(sub));
    forall k | k in mid && k !in sub && k !in Installed && k != "superclass"
      ensures Visible(s.value)[k] == Defined(mid[k])
    {
      assert k !in s.value.own;
      assert Visible(m.value)[k] == m.value.own[k];
    }
    forall k | k in base && k !in mid && k !in sub && k !in Installed && k != "superclass"
      ensures Visible(s.value)[k] == base[k]
    {
      assert k !in s.value.own && k !in m.value.own;
    }
  }

  // ----------------------------------------------------------------- events

  /** A listener, known only by its identity. */
  type Handler = nat

  /** What `fireEvent` starts: the handlers it hands to the iteration, or an immediate onComplete. */
  datatype Fired = CompletedImmediately | Dispatched(handlers: seq<Handler>)

  /** The listener lists that `initEvents`, `on` and `fireEvent` work on. */
  class Emitter {
    var listeners: map<string, seq<Handler>>

    /** Every list holds a handler: `on` never leaves an empty one behind. */
    predicate NonEmptyLists()
      reads this
    {
      forall e :: e in listeners ==> |listeners[e]| > 0
    }

    /** `initEvents()` */
    constructor ()
      ensures listeners == map[]
      ensures NonEmptyLists()
    {
      listeners := map[];
    }

    /** `on(event, handler)` appends the handler to that event's list, creating the list if needed. */
    method On(event: string, handler: Handler)
      modifies this
      ensures event in listeners
      ensures listeners[event] == (if event in old(listeners) then old(listeners)[event] else []) + [handler]
      ensures forall e :: e != event ==> (e in listeners <==> e in old(listeners))
      ensures forall e :: e != event && e in old(listeners) ==> listeners[e] == old(listeners)[e]
      ensures old(NonEmptyLists()) ==> NonEmptyLists()
    {
      var current := if event in listeners then listeners[event] else [];
      listeners := listeners[event := current + [handler]];
    }

    /** `fireEvent(event, param, onComplete)`: with no list, onComplete runs at once. */
    method FireEvent(event: string) returns (r: Fired)
      ensures event !in listeners <==> r.CompletedImmediately?
      ensures event in listeners ==> r == Dispatched(listeners[event])
      ensures NonEmptyLists() && r.Dispatched? ==> |r.handlers| > 0
    {
      if event in listeners {
        r := Dispatched(listeners[event]);
      } else {
        r := CompletedImmediately;
      }
    }
  }
}
