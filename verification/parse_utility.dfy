/** `ControllerStateParseUtility`: the registry from controller type to the
    parser class that decodes it, and the per-controller cache of parser
    instances built from it. */
module ParseUtility {
  import opened Wrappers
  import ControllerInput

  /** `NRInput.MAX_CONTROLLER_STATE_COUNT`. */
  const MaxControllerStateCount: int := 2

  /** A class a parser type can name: the SDK's three parsers or any other
      class, which may or may not implement the parser interface. */
  datatype ParserClass = PhoneParser | XrealLightParser | HandParser | OtherClass(id: nat, isParser: bool)

  predicate IsParserClass(c: ParserClass) {
    !c.OtherClass? || c.isParser
  }

  /** A parser object: its class and an identity distinguishing instances. */
  datatype Instance = Instance(cls: ParserClass, serial: nat)

  /** The type→class dictionary (a `null` class can be stored), the cached
      parser per controller index, and the next instance identity. */
  datatype Registry = Registry(
    defaults: map<ControllerInput.ControllerType, Option<ParserClass>>,
    slots: seq<Option<Instance>>,
    nextSerial: nat)

  predicate Valid(r: Registry) {
    |r.slots| == MaxControllerStateCount
  }

  /** The built-in dictionary: phone and editor use the phone parser, the
      Xreal Light controller its own parser, hands the hand parser. No parser
      is cached yet. */
  function NewRegistry(): (r: Registry)
    ensures Valid(r)
    ensures forall k :: 0 <= k < |r.slots| ==> r.slots[k].None?
    ensures DefaultType(r, ControllerInput.TypePhone) == Some(PhoneParser)
    ensures DefaultType(r, ControllerInput.TypeEditor) == Some(PhoneParser)
    ensures DefaultType(r, ControllerInput.TypeXrealLight) == Some(XrealLightParser)
    ensures DefaultType(r, ControllerInput.TypeHand) == Some(HandParser)
    ensures DefaultType(r, ControllerInput.TypeUnknown) == None
  {
    Registry(
      map[ControllerInput.TypePhone := Some(PhoneParser),
          ControllerInput.TypeEditor := Some(PhoneParser),
          ControllerInput.TypeXrealLight := Some(XrealLightParser),
          ControllerInput.TypeHand := Some(HandParser)],
      [None, None], 0)
  }

  /** `GetDefaultControllerStateParserType`: the stored class, `null` when
      the type has no entry (or an entry holding `null`). */
  function DefaultType(r: Registry, t: ControllerInput.ControllerType): (c: Option<ParserClass>)
    ensures t !in r.defaults ==> c.None?
    ensures c.Some? ==> t in r.defaults && r.defaults[t] == c
  {
    if t in r.defaults then r.defaults[t] else None
  }

  /** `CreateControllerStateParser`: a new instance, or `null` when the class
      does not implement the parser interface. */
  function Create(c: ParserClass, serial: nat): (o: Option<Instance>)
    ensures o.Some? <==> IsParserClass(c)
    ensures o.Some? ==> o.value == Instance(c, serial)
  {
    if IsParserClass(c) then Some(Instance(c, serial)) else None
  }

  /** `GetControllerStateParser(type, index)`: clears the slot when the type
      has no parser class; keeps the cached parser when its class is the
      registered one; otherwise creates a new parser. Returns the slot. An
      index outside the cache throws. */
  function GetControllerStateParser(r: Registry, t: ControllerInput.ControllerType, index: int)
    : (o: Result<(Option<Instance>, Registry), string>)
    requires Valid(r)
    ensures o.Failure? <==> !(0 <= index < MaxControllerStateCount)
    ensures o.Success? ==>
      var (p, r') := o.value;
      && Valid(r')
      && r'.defaults == r.defaults
      && r'.slots == r.slots[index := p]
      && (DefaultType(r, t).None? ==> p.None?)
      && (DefaultType(r, t).Some? && r.slots[index].Some? && r.slots[index].value.cls == DefaultType(r, t).value ==>
          p == r.slots[index] && r' == r)
      && (DefaultType(r, t).Some? && (r.slots[index].None? || r.slots[index].value.cls != DefaultType(r, t).value) ==>
          p == Create(DefaultType(r, t).value, r.nextSerial))
      && (p.Some? ==> p.value.cls == DefaultType(r, t).value)
  {
    if !(0 <= index < MaxControllerStateCount) then Failure("IndexOutOfRangeException")
    else
      var c := DefaultType(r, t);
      if c.None? then Success((None, r.(slots := r.slots[index := None])))
      else if r.slots[index].None? || c.value != r.slots[index].value.cls then
        var p := Create(c.value, r.nextSerial);
        Success((p, r.(slots := r.slots[index := p], nextSerial := r.nextSerial + 1)))
      else Success((r.slots[index], r))
  }

  /** `SetDefaultControllerStateParserType`: a `null` class removes an
      existing entry; otherwise the entry is inserted or overwritten (so a
      `null` class for a type without an entry is stored as such). */
  function SetDefaultControllerStateParserType(r: Registry, t: ControllerInput.ControllerType, c: Option<ParserClass>)
    : (r': Registry)
    ensures r'.slots == r.slots && r'.nextSerial == r.nextSerial
    ensures c.None? && t in r.defaults ==> r'.defaults == r.defaults - {t}
    ensures c.Some? || t !in r.defaults ==> r'.defaults == r.defaults[t := c]
    ensures DefaultType(r', t) == c
    ensures forall u :: u != t ==> DefaultType(r', u) == DefaultType(r, u)
  {
    if c.None? && t in r.defaults then r.(defaults := r.defaults - {t})
    else r.(defaults := r.defaults[t := c])
  }

  /** Asking twice for the same type and index hands back the same parser
      object: the second call hits the cache. */
  lemma GetTwiceIsCached(r: Registry, t: ControllerInput.ControllerType, index: int)
    requires Valid(r) && 0 <= index < MaxControllerStateCount
    ensures var (p1, r1) := GetControllerStateParser(r, t, index).value;
      var (p2, r2) := GetControllerStateParser(r1, t, index).value;
      p2 == p1 && (p1.Some? ==> r2 == r1)
  {
  }

  /** After setting a null class for a type, asking for that type's parser
      yields null and clears the slot, whether the entry was removed or a
      null entry was stored. */
  lemma UnsetTypeYieldsNoParser(r: Registry, t: ControllerInput.ControllerType, index: int)
    requires Valid(r) && 0 <= index < MaxControllerStateCount
    ensures var o := GetControllerStateParser(SetDefaultControllerStateParserType(r, t, None), t, index);
      o.Success? && o.value.0.None? && o.value.1.slots[index].None?
  {
  }

  /** After registering a parser class for a type, the parser returned for
      that type is an instance of that class. */
  lemma SetTypeThenGet(r: Registry, t: ControllerInput.ControllerType, c: ParserClass, index: int)
    requires Valid(r) && 0 <= index < MaxControllerStateCount && IsParserClass(c)
    ensures var o := GetControllerStateParser(SetDefaultControllerStateParserType(r, t, Some(c)), t, index);
      o.Success? && o.value.0.Some? && o.value.0.value.cls == c
  {
  }
}
