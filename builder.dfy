/**
 * The attribute collection `HtmxAttrs` of src/attributes.rs: its four seeding
 * constructors, its append-only mutators, and the terminal conversion that
 * joins every attribute's string with single spaces.
 */
module Builder {
  import opened Wrappers
  import opened Errors
  import opened Uri
  import opened Text
  import A = Attributes

  /**
   * Converts every attribute in order and stops at the first that fails:
   * the result is a success exactly when every attribute converts, and an
   * error is the error of the first attribute that does not.
   */
  function CollectAttrStrings(validate: Validator, attrs: seq<A.HtmxAttr>): (r: Result<seq<string>, HtmxError>)
    ensures r.Ok? <==> forall i :: 0 <= i < |attrs| ==> A.AttrString(validate, attrs[i]).Ok?
    ensures r.Ok? ==> |r.value| == |attrs|
    ensures r.Err? ==> r.error.InvalidUri?
    ensures r.Ok? ==> forall i :: 0 <= i < |attrs| ==> A.AttrString(validate, attrs[i]) == Ok(r.value[i])
    ensures forall k :: 0 <= k < |attrs| && A.AttrString(validate, attrs[k]).Err? &&
                        (forall j :: 0 <= j < k ==> A.AttrString(validate, attrs[j]).Ok?) ==>
                        r == Err(A.AttrString(validate, attrs[k]).error)
  {
    if attrs == [] then Ok([])
    else match A.AttrString(validate, attrs[0])
      case Err(e) => Err(e)
      case Ok(s) =>
        var rest := CollectAttrStrings(validate, attrs[1..]);
        assert forall i :: 1 <= i < |attrs| ==> attrs[1..][i - 1] == attrs[i];
        match rest
        case Err(e) => Err(e)
        case Ok(ss) => Ok([s] + ss)
  }

  /**
   * What the terminal conversion computes: `EmptyAttrs` for an empty
   * collection, otherwise the first attribute error, otherwise the trimmed
   * space-join of the attribute strings in insertion order.
   */
  function Serialize(validate: Validator, attrs: seq<A.HtmxAttr>): (r: Result<string, HtmxError>)
    ensures r == Err(EmptyAttrs) <==> attrs == []
  {
    if attrs == [] then Err(EmptyAttrs)
    else match CollectAttrStrings(validate, attrs)
      case Err(e) => Err(e)
      case Ok(ss) => Ok(Trim(Join(" ", ss)))
  }

  /**
   * The order of precedence of the outcomes: `EmptyAttrs` exactly for an
   * empty collection; otherwise the error of the first attribute that fails;
   * otherwise success, which needs every attribute to convert.
   */
  lemma SerializePrecedence(validate: Validator, attrs: seq<A.HtmxAttr>)
    ensures Serialize(validate, attrs) == Err(EmptyAttrs) <==> attrs == []
    ensures forall k :: 0 <= k < |attrs| && A.AttrString(validate, attrs[k]).Err? &&
                        (forall j :: 0 <= j < k ==> A.AttrString(validate, attrs[j]).Ok?) ==>
                        Serialize(validate, attrs) == Err(A.AttrString(validate, attrs[k]).error)
    ensures Serialize(validate, attrs).Ok? <==>
              attrs != [] && forall i :: 0 <= i < |attrs| ==> A.AttrString(validate, attrs[i]).Ok?
    ensures Serialize(validate, attrs).Ok? ==>
              Serialize(validate, attrs).value == Trim(Join(" ", CollectAttrStrings(validate, attrs).value))
  {
  }

  /** When the attributes convert to `ss`, element by element, collecting them gives `ss`. */
  lemma {:induction false} CollectConverted(validate: Validator, attrs: seq<A.HtmxAttr>, ss: seq<string>)
    requires |ss| == |attrs|
    requires forall i :: 0 <= i < |attrs| ==> A.AttrString(validate, attrs[i]) == Ok(ss[i])
    ensures CollectAttrStrings(validate, attrs) == Ok(ss)
  {
    if attrs != [] {
      assert A.AttrString(validate, attrs[0]) == Ok(ss[0]);
      forall i | 0 <= i < |attrs| - 1
        ensures A.AttrString(validate, attrs[1..][i]) == Ok(ss[1..][i])
      {
        assert attrs[1..][i] == attrs[i + 1];
      }
      CollectConverted(validate, attrs[1..], ss[1..]);
      assert ss == [ss[0]] + ss[1..];
    }
  }

  /**
   * When the attributes convert to `ss`, element by element, the collection
   * serializes to the trimmed space-join of `ss`.
   */
  lemma SerializeConverted(validate: Validator, attrs: seq<A.HtmxAttr>, ss: seq<string>)
    requires attrs != [] && |ss| == |attrs|
    requires forall i :: 0 <= i < |attrs| ==> A.AttrString(validate, attrs[i]) == Ok(ss[i])
    ensures Serialize(validate, attrs) == Ok(Trim(Join(" ", ss)))
  {
    CollectConverted(validate, attrs, ss);
  }

  /**
   * The shape every collection built from `get`, `post`, `put` or `delete`
   * keeps: a request first and no other request after it.
   */
  predicate Seeded(attrs: seq<A.HtmxAttr>)
  {
    |attrs| >= 1 && attrs[0].Request? && forall i :: 1 <= i < |attrs| ==> !attrs[i].Request?
  }

  /**
   * A seeded collection fails to serialize exactly when the seeding
   * request's URI is rejected, and then with that rejection.
   */
  lemma SeededFailsIffInvalidUri(validate: Validator, attrs: seq<A.HtmxAttr>)
    requires Seeded(attrs)
    ensures Serialize(validate, attrs).Err? <==> !ValidUri(validate, attrs[0].req.uri)
    ensures Serialize(validate, attrs).Err? ==>
              Serialize(validate, attrs).error == InvalidUri(validate(attrs[0].req.uri).diag)
  {
    SerializePrecedence(validate, attrs);
    if ValidUri(validate, attrs[0].req.uri) {
      assert forall i :: 0 <= i < |attrs| ==> A.AttrString(validate, attrs[i]).Ok?;
    } else {
      assert A.AttrString(validate, attrs[0]).Err?;
    }
  }

  /**
   * A seeded collection whose URI is accepted serializes to a string that
   * begins with the request token `<verb>=<uri>`, provided the URI does not
   * end in whitespace the final trim could remove.
   */
  lemma SeededOutputStartsWithRequest(validate: Validator, attrs: seq<A.HtmxAttr>)
    requires Seeded(attrs) && ValidUri(validate, attrs[0].req.uri)
    requires attrs[0].req.uri == [] || !IsWhitespace(attrs[0].req.uri[|attrs[0].req.uri| - 1])
    ensures Serialize(validate, attrs).Ok?
    ensures var token := A.RequestTypeString(attrs[0].req.kind) + "=" + attrs[0].req.uri;
            |token| <= |Serialize(validate, attrs).value| &&
            Serialize(validate, attrs).value[..|token|] == token
  {
    SeededFailsIffInvalidUri(validate, attrs);
    var ss := CollectAttrStrings(validate, attrs).value;
    var token := A.RequestTypeString(attrs[0].req.kind) + "=" + attrs[0].req.uri;
    assert ss[0] == token;
    TokenEdges(attrs[0].req.kind, attrs[0].req.uri);
    var joined := Join(" ", ss);
    JoinStartsWithFirst(" ", ss);
    assert joined[..|token|] == token;
    assert joined[0] == token[0] && joined[|token| - 1] == token[|token| - 1];
    TrimKeepsPrefix(joined, |token|);
  }

  /** A request token begins with `h` and ends in `=` or the URI's last character. */
  lemma TokenEdges(kind: A.HtmxRequestType, uri: string)
    requires uri == [] || !IsWhitespace(uri[|uri| - 1])
    ensures var token := A.RequestTypeString(kind) + "=" + uri;
            !IsWhitespace(token[0]) && !IsWhitespace(token[|token| - 1])
  {
    var token := A.RequestTypeString(kind) + "=" + uri;
    assert token[0] == 'h';
    if uri != [] {
      assert token[|token| - 1] == uri[|uri| - 1];
    }
  }

  /**
   * `HtmxAttrs`: the ordered attribute list under construction. Each mutator
   * appends one attribute to the end; nothing is ever removed or merged.
   */
  class HtmxAttrs {
    var attrs: seq<A.HtmxAttr>

    /** The derived `Default`: a collection with no attributes at all. */
    constructor Default()
      ensures attrs == []
    {
      attrs := [];
    }

    /** `HtmxAttrs::get`: one `Get` request, its URI not yet checked. */
    constructor Get(uri: string)
      ensures attrs == [A.Request(A.HtmxRequest(A.Get, uri))]
      ensures Seeded(attrs)
    {
      attrs := [A.Request(A.HtmxRequest(A.Get, uri))];
    }

    /** `HtmxAttrs::post`: one `Post` request, its URI not yet checked. */
    constructor Post(uri: string)
      ensures attrs == [A.Request(A.HtmxRequest(A.Post, uri))]
      ensures Seeded(attrs)
    {
      attrs := [A.Request(A.HtmxRequest(A.Post, uri))];
    }

    /** `HtmxAttrs::put`: one `Put` request, its URI not yet checked. */
    constructor Put(uri: string)
      ensures attrs == [A.Request(A.HtmxRequest(A.Put, uri))]
      ensures Seeded(attrs)
    {
      attrs := [A.Request(A.HtmxRequest(A.Put, uri))];
    }

    /** `HtmxAttrs::delete`: one `Delete` request, its URI not yet checked. */
    constructor Delete(uri: string)
      ensures attrs == [A.Request(A.HtmxRequest(A.Delete, uri))]
      ensures Seeded(attrs)
    {
      attrs := [A.Request(A.HtmxRequest(A.Delete, uri))];
    }

    /** `target`: appends an `hx-target` attribute. */
    method Target(target: string)
      modifies this
      ensures attrs == old(attrs) + [A.Target(A.HtmxTarget(target))]
      ensures old(Seeded(attrs)) ==> Seeded(attrs)
    {
      attrs := attrs + [A.Target(A.HtmxTarget(target))];
    }

    /** `extension`: appends an `hx-ext` attribute. */
    method Extension(ext: string)
      modifies this
      ensures attrs == old(attrs) + [A.Ext(A.HtmxExt(ext))]
      ensures old(Seeded(attrs)) ==> Seeded(attrs)
    {
      attrs := attrs + [A.Ext(A.HtmxExt(ext))];
    }

    /** `triggers`: appends one `hx-trigger` attribute holding all of `ts` in order. */
    method Triggers(ts: seq<A.HtmxTrigger>)
      modifies this
      ensures attrs == old(attrs) + [A.Trigger(ts)]
      ensures old(Seeded(attrs)) ==> Seeded(attrs)
    {
      attrs := attrs + [A.Trigger(ts)];
    }

    /** `trigger`: appends one `hx-trigger` attribute holding just `t`. */
    method Trigger(t: A.HtmxTrigger)
      modifies this
      ensures attrs == old(attrs) + [A.Trigger([t])]
      ensures old(Seeded(attrs)) ==> Seeded(attrs)
    {
      attrs := attrs + [A.Trigger([t])];
    }

    /** `misc`: appends a raw attribute, injected verbatim. */
    method Misc(misc: string)
      modifies this
      ensures attrs == old(attrs) + [A.Misc(misc)]
      ensures old(Seeded(attrs)) ==> Seeded(attrs)
    {
      attrs := attrs + [A.Misc(misc)];
    }

    /**
     * The terminal `try_into`: converts the first attribute (failing with
     * `EmptyAttrs` if there is none), then appends each further attribute's
     * string after one space, stopping at the first error, and trims the result.
     */
    method TryIntoString(validate: Validator) returns (r: Result<string, HtmxError>)
      ensures r == Serialize(validate, attrs)
    {
      if |attrs| == 0 {
        return Err(EmptyAttrs);
      }
      var first := A.AttrString(validate, attrs[0]);
      if first.Err? {
        return Err(first.error);
      }
      var s := first.value;
      ghost var parts := [first.value];
      var i := 1;
      while i < |attrs|
        invariant 1 <= i <= |attrs|
        invariant |parts| == i
        invariant forall j :: 0 <= j < i ==> A.AttrString(validate, attrs[j]) == Ok(parts[j])
        invariant s == Join(" ", parts)
      {
        var next := A.AttrString(validate, attrs[i]);
        if next.Err? {
          return Err(next.error);
        }
        JoinSnoc(" ", parts, next.value);
        s := s + " " + next.value;
        parts := parts + [next.value];
        i := i + 1;
      }
      assert CollectAttrStrings(validate, attrs).value == parts;
      r := Ok(Trim(s));
    }
  }
}
