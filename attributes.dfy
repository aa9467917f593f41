/**
 * The attribute variants of src/attributes.rs and their conversion to text:
 * triggers, trigger lists, targets, extensions, requests and raw attributes.
 */
module Attributes {
  import opened Wrappers
  import opened Errors
  import opened Uri
  import opened Text

  // ----- primitive wrappers: stored verbatim, no behaviour of their own -----

  datatype HtmxEvent = HtmxEvent(name: string)
  datatype HtmxModifier = HtmxModifier(text: string)
  datatype HtmxTarget = HtmxTarget(selector: string)
  datatype HtmxExt = HtmxExt(name: string)

  /** An event with an optional modifier, such as `change` or `load once`. */
  datatype HtmxTrigger = HtmxTrigger(event: HtmxEvent, modifier: Option<HtmxModifier>)

  datatype HtmxRequestType = Get | Put | Post | Delete

  /** A request verb with its URI, kept as the caller gave it until serialization. */
  datatype HtmxRequest = HtmxRequest(kind: HtmxRequestType, uri: string)

  /** One entry of an attribute collection. */
  datatype HtmxAttr =
    | Request(req: HtmxRequest)
    | Trigger(triggers: seq<HtmxTrigger>)
    | Target(target: HtmxTarget)
    | Ext(ext: HtmxExt)
    | Misc(raw: string)

  // ----- triggers -----

  /** `HtmxTrigger::new`: a trigger for `event` without a modifier. */
  function NewTrigger(event: string): (t: HtmxTrigger)
    ensures t.event.name == event && t.modifier == None
  {
    HtmxTrigger(HtmxEvent(event), None)
  }

  /** `From<S> for HtmxTrigger`: a bare event name used where a trigger is expected. */
  function TriggerFrom(value: string): (t: HtmxTrigger)
    ensures t.event.name == value && t.modifier == None
  {
    HtmxTrigger(HtmxEvent(value), None)
  }

  /** `HtmxTrigger::modifier`: sets the modifier, replacing any earlier one. */
  function WithModifier(t: HtmxTrigger, modifier: string): (r: HtmxTrigger)
    ensures r.event == t.event
    ensures r.modifier == Some(HtmxModifier(modifier))
  {
    t.(modifier := Some(HtmxModifier(modifier)))
  }

  /** Setting a modifier twice keeps only the second. */
  lemma ModifierOverwrites(t: HtmxTrigger, m1: string, m2: string)
    ensures WithModifier(WithModifier(t, m1), m2) == WithModifier(t, m2)
  {
  }

  /** The conversion of one trigger: the event, then a space and the modifier if there is one. */
  function TriggerString(t: HtmxTrigger): (r: Result<string, HtmxError>)
    ensures r.Ok?
    ensures t.modifier.None? ==> r.value == t.event.name
    ensures t.modifier.Some? ==> r.value == t.event.name + " " + t.modifier.value.text
  {
    match t
    case HtmxTrigger(HtmxEvent(event), None) => Ok(event)
    case HtmxTrigger(HtmxEvent(event), Some(HtmxModifier(modifier))) => Ok(event + " " + modifier)
  }

  /**
   * Different triggers give different strings, as long as event names hold no
   * space: the first space is where the modifier begins.
   */
  lemma TriggerStringInjective(t1: HtmxTrigger, t2: HtmxTrigger)
    requires ' ' !in t1.event.name && ' ' !in t2.event.name
    requires TriggerString(t1).value == TriggerString(t2).value
    ensures t1 == t2
  {
    var e1, e2 := t1.event.name, t2.event.name;
    match (t1.modifier, t2.modifier)
    case (None, None) =>
    case (Some(m1), Some(m2)) =>
      SplitAtFirst(' ', e1, m1.text, e2, m2.text);
    case (None, Some(m2)) =>
      assert false;  // e1 would hold the space in front of m2
    case (Some(m1), None) =>
      assert false;
  }

  /**
   * The `map(|val| val.into()).collect()` of `triggers`: bare event names
   * become modifier-less triggers, in iteration order.
   */
  function IntoTriggers(names: seq<string>): (ts: seq<HtmxTrigger>)
    ensures |ts| == |names|
    ensures forall i :: 0 <= i < |names| ==> ts[i].event.name == names[i] && ts[i].modifier.None?
  {
    seq(|names|, i requires 0 <= i < |names| => TriggerFrom(names[i]))
  }

  // ----- trigger lists -----

  /** The strings of the triggers, in list order (never failing, as each trigger's conversion cannot fail). */
  function TriggerStrings(ts: seq<HtmxTrigger>): (ss: seq<string>)
    ensures |ss| == |ts|
    ensures forall i :: 0 <= i < |ts| ==> Ok(ss[i]) == TriggerString(ts[i])
  {
    seq(|ts|, i requires 0 <= i < |ts| => TriggerString(ts[i]).value)
  }

  /**
   * The `map(try_into).collect()` over the trigger list: converts each trigger
   * in order and stops at the first error.
   */
  function CollectTriggerStrings(ts: seq<HtmxTrigger>): (r: Result<seq<string>, HtmxError>)
    ensures r == Ok(TriggerStrings(ts))
  {
    if ts == [] then Ok([])
    else match TriggerString(ts[0])
      case Err(e) => Err(e)
      case Ok(s) =>
        match CollectTriggerStrings(ts[1..])
        case Err(e) => Err(e)
        case Ok(rest) =>
          assert TriggerStrings(ts) == [s] + TriggerStrings(ts[1..]);
          Ok([s] + rest)
  }

  /** The fold of the trigger-list conversion: appends each string followed by a comma. */
  function FoldWithCommas(acc: string, strs: seq<string>): (r: string)
    ensures |acc| <= |r| && r[..|acc|] == acc
    ensures strs == [] <==> r == acc
    decreases |strs|
  {
    if strs == [] then acc else FoldWithCommas(acc + strs[0] + ",", strs[1..])
  }

  /** `String::pop`: removes the last character, if any. */
  function Pop(s: string): (r: string)
    ensures s == [] ==> r == []
    ensures s != [] ==> r + [s[|s| - 1]] == s
  {
    if s == [] then s else s[..|s| - 1]
  }

  /** Folding a non-empty list leaves exactly one trailing comma after the comma-join. */
  lemma {:induction false} FoldIsJoin(acc: string, strs: seq<string>)
    requires strs != []
    ensures FoldWithCommas(acc, strs) == acc + Join(",", strs) + ","
    decreases |strs|
  {
    if |strs| > 1 {
      FoldIsJoin(acc + strs[0] + ",", strs[1..]);
    }
  }

  /**
   * The `Trigger` arm of the attribute conversion: `hx-trigger=` and the
   * comma-joined trigger strings. For an empty list the pop removes the `=`.
   */
  function TriggerListString(ts: seq<HtmxTrigger>): (r: Result<string, HtmxError>)
    ensures r.Ok?
    ensures ts == [] ==> r.value == "hx-trigger"
    ensures ts != [] ==> r.value == "hx-trigger=" + Join(",", TriggerStrings(ts))
  {
    match CollectTriggerStrings(ts)
    case Err(e) => Err(e)
    case Ok(strs) =>
      var folded := FoldWithCommas("hx-trigger=", strs);
      assert strs != [] ==> folded == "hx-trigger=" + Join(",", strs) + "," by {
        if strs != [] { FoldIsJoin("hx-trigger=", strs); }
      }
      Ok(Pop(folded))
  }

  // ----- targets, extensions, requests -----

  /** The conversion of a target: `hx-target=` and the selector verbatim. */
  function TargetString(t: HtmxTarget): (r: Result<string, HtmxError>)
    ensures r.Ok? && |r.value| >= 10
    ensures r.value[..10] == "hx-target=" && r.value[10..] == t.selector
  {
    Ok("hx-target=" + t.selector)
  }

  /** The conversion of an extension: `hx-ext=` and the name verbatim. */
  function ExtString(e: HtmxExt): (r: Result<string, HtmxError>)
    ensures r.Ok? && |r.value| >= 7
    ensures r.value[..7] == "hx-ext=" && r.value[7..] == e.name
  {
    Ok("hx-ext=" + e.name)
  }

  /** `ToString for HtmxRequestType`: the attribute name of each verb. */
  function RequestTypeString(t: HtmxRequestType): (r: string)
    ensures '=' !in r && |r| >= 6 && r[..3] == "hx-"
  {
    match t
    case Get => "hx-get"
    case Put => "hx-put"
    case Post => "hx-post"
    case Delete => "hx-delete"
  }

  /** The verb names are pairwise distinct. */
  lemma RequestTypeStringInjective(a: HtmxRequestType, b: HtmxRequestType)
    ensures RequestTypeString(a) == RequestTypeString(b) <==> a == b
  {
    if a != b {
      var sa, sb := RequestTypeString(a), RequestTypeString(b);
      assert |sa| != |sb| || sa[3] != sb[3];
    }
  }

  /**
   * The conversion of a request: the URI must pass the URI parser, and then
   * the result is the verb's name, `=` and the URI exactly as given.
   */
  function RequestString(validate: Validator, req: HtmxRequest): (r: Result<string, HtmxError>)
    ensures r.Ok? <==> ValidUri(validate, req.uri)
    ensures r.Ok? ==> r.value == RequestTypeString(req.kind) + "=" + req.uri
    ensures r.Err? ==> r.error == InvalidUri(validate(req.uri).diag)
  {
    match validate(req.uri)
    case Rejected(diag) => Err(InvalidUri(diag))
    case Accepted => Ok(RequestTypeString(req.kind) + "=" + req.uri)
  }

  /** Two requests that serialize to the same string are the same request. */
  lemma RequestStringInjective(validate: Validator, q1: HtmxRequest, q2: HtmxRequest)
    requires RequestString(validate, q1).Ok? && RequestString(validate, q2).Ok?
    requires RequestString(validate, q1).value == RequestString(validate, q2).value
    ensures q1 == q2
  {
    SplitAtFirst('=', RequestTypeString(q1.kind), q1.uri, RequestTypeString(q2.kind), q2.uri);
    RequestTypeStringInjective(q1.kind, q2.kind);
  }

  // ----- dispatch over the variants -----

  /**
   * The conversion of one attribute. Only a request can fail, and only when
   * its URI is rejected; a raw attribute is passed through unchanged.
   */
  function AttrString(validate: Validator, a: HtmxAttr): (r: Result<string, HtmxError>)
    ensures r.Err? <==> a.Request? && !ValidUri(validate, a.req.uri)
    ensures r.Err? ==> r.error == InvalidUri(validate(a.req.uri).diag)
    ensures a.Request? && r.Ok? ==> r.value == RequestTypeString(a.req.kind) + "=" + a.req.uri
    ensures a.Trigger? ==> r == TriggerListString(a.triggers)
    ensures a.Target? ==> r == Ok("hx-target=" + a.target.selector)
    ensures a.Ext? ==> r == Ok("hx-ext=" + a.ext.name)
    ensures a.Misc? ==> r == Ok(a.raw)
  {
    match a
    case Target(target) => TargetString(target)
    case Trigger(triggers) => TriggerListString(triggers)
    case Request(req) => RequestString(validate, req)
    case Ext(ext) => ExtString(ext)
    case Misc(misc) => Ok(misc)
  }
}
