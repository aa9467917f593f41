/**
 * Client-side uses of the builder: the repository's own `hx_get` test and the
 * behaviours around it, each proved from the contracts of the builder alone.
 */
module AttributeTests {
  import opened Wrappers
  import opened Errors
  import opened Uri
  import opened Text
  import A = Attributes
  import opened Builder

  /** `get("/htmxdemo").target("#repo").triggers(["change", "load"])` and its exact string. */
  method HxGet(validate: Validator) returns (r: Result<string, HtmxError>)
    requires ValidUri(validate, "/htmxdemo")
    ensures r == Ok("hx-get=/htmxdemo hx-target=#repo hx-trigger=change,load")
  {
    var b := new HtmxAttrs.Get("/htmxdemo");
    b.Target("#repo");
    b.Triggers(A.IntoTriggers(["change", "load"]));
    HxGetAttrs(validate, b.attrs);
    HxGetJoined();
    r := b.TryIntoString(validate);
  }

  /** The three attributes of `hx_get` convert to their three tokens. */
  lemma HxGetAttrs(validate: Validator, attrs: seq<A.HtmxAttr>)
    requires ValidUri(validate, "/htmxdemo")
    requires attrs == [A.Request(A.HtmxRequest(A.Get, "/htmxdemo")), A.Target(A.HtmxTarget("#repo")),
                       A.Trigger(A.IntoTriggers(["change", "load"]))]
    ensures Serialize(validate, attrs) ==
            Ok(Trim(Join(" ", ["hx-get=/htmxdemo", "hx-target=#repo", "hx-trigger=change,load"])))
  {
    var ss := ["hx-get=/htmxdemo", "hx-target=#repo", "hx-trigger=change,load"];
    assert A.AttrString(validate, attrs[0]) == Ok(ss[0]) by {
      assert A.RequestTypeString(A.Get) + "=" + "/htmxdemo" == ss[0];
    }
    assert A.AttrString(validate, attrs[1]) == Ok(ss[1]) by {
      assert "hx-target=" + "#repo" == ss[1];
    }
    assert A.AttrString(validate, attrs[2]) == Ok(ss[2]) by {
      var ts := A.IntoTriggers(["change", "load"]);
      assert A.TriggerStrings(ts) == ["change", "load"];
      assert Join(",", ["change", "load"]) == "change" + "," + "load";
      assert "hx-trigger=" + ("change" + "," + "load") == ss[2];
    }
    SerializeConverted(validate, attrs, ss);
  }

  /** The three tokens of `hx_get`, space-joined and trimmed, spell the expected string. */
  lemma HxGetJoined()
    ensures Trim(Join(" ", ["hx-get=/htmxdemo", "hx-target=#repo", "hx-trigger=change,load"])) ==
            "hx-get=/htmxdemo hx-target=#repo hx-trigger=change,load"
  {
    var ss := ["hx-get=/htmxdemo", "hx-target=#repo", "hx-trigger=change,load"];
    calc {
      Trim(Join(" ", ss));
    == { TrimOfJoin(" ", ss); }  // no whitespace at either end of the join
      Join(" ", ss);
    == { JoinOfThree(ss[0], ss[1], ss[2]); }
      "hx-get=/htmxdemo" + " " + "hx-target=#repo" + " " + "hx-trigger=change,load";
    == { assert "hx-get=/htmxdemo" + " " + "hx-target=#repo" == "hx-get=/htmxdemo hx-target=#repo"; }
      "hx-get=/htmxdemo hx-target=#repo" + " " + "hx-trigger=change,load";
    ==
      "hx-get=/htmxdemo hx-target=#repo hx-trigger=change,load";
    }
  }

  /** Joining three parts with spaces, written out. */
  lemma JoinOfThree(a: string, b: string, c: string)
    ensures Join(" ", [a, b, c]) == a + " " + b + " " + c
  {
    assert [a, b, c][1..] == [b, c];
    assert [b, c][1..] == [c];
    assert Join(" ", [b, c]) == b + " " + c;
    assert a + " " + (b + " " + c) == a + " " + b + " " + c;
  }

  /** Two targets stay two tokens in call order, and a raw attribute is copied as given. */
  method RepeatedTargetsAndMisc(validate: Validator) returns (r: Result<string, HtmxError>)
    requires ValidUri(validate, "/a")
    ensures r == Ok("hx-post=/a hx-target=#a hx-target=#b data-foo=bar")
  {
    var b := new HtmxAttrs.Post("/a");
    b.Target("#a");
    b.Target("#b");
    b.Misc("data-foo=bar");
    RepeatedTargetsAndMiscAttrs(validate, b.attrs);
    RepeatedTargetsAndMiscJoined();
    r := b.TryIntoString(validate);
  }

  /** Each attribute of the repeated-target collection converts to its own token. */
  lemma RepeatedTargetsAndMiscAttrs(validate: Validator, attrs: seq<A.HtmxAttr>)
    requires ValidUri(validate, "/a")
    requires attrs == [A.Request(A.HtmxRequest(A.Post, "/a")), A.Target(A.HtmxTarget("#a")),
                       A.Target(A.HtmxTarget("#b")), A.Misc("data-foo=bar")]
    ensures Serialize(validate, attrs) ==
            Ok(Trim(Join(" ", ["hx-post=/a", "hx-target=#a", "hx-target=#b", "data-foo=bar"])))
  {
    var ss := ["hx-post=/a", "hx-target=#a", "hx-target=#b", "data-foo=bar"];
    assert A.AttrString(validate, attrs[0]) == Ok(ss[0]) by {
      assert A.RequestTypeString(A.Post) + "=" + "/a" == ss[0];
    }
    assert A.AttrString(validate, attrs[1]) == Ok(ss[1]) by {
      assert "hx-target=" + "#a" == ss[1];
    }
    assert A.AttrString(validate, attrs[2]) == Ok(ss[2]) by {
      assert "hx-target=" + "#b" == ss[2];
    }
    SerializeConverted(validate, attrs, ss);
  }

  /** The four tokens, space-joined and trimmed, spell the expected string. */
  lemma RepeatedTargetsAndMiscJoined()
    ensures Trim(Join(" ", ["hx-post=/a", "hx-target=#a", "hx-target=#b", "data-foo=bar"])) ==
            "hx-post=/a hx-target=#a hx-target=#b data-foo=bar"
  {
    RepeatedTargetsAndMiscSpelled();
    TrimOfJoin(" ", ["hx-post=/a", "hx-target=#a", "hx-target=#b", "data-foo=bar"]);
  }

  /** The four tokens, space-joined, as one literal. */
  lemma RepeatedTargetsAndMiscSpelled()
    ensures Join(" ", ["hx-post=/a", "hx-target=#a", "hx-target=#b", "data-foo=bar"]) ==
            "hx-post=/a hx-target=#a hx-target=#b data-foo=bar"
  {
    var ss := ["hx-post=/a", "hx-target=#a", "hx-target=#b", "data-foo=bar"];
    assert ss[1..] == ["hx-target=#a", "hx-target=#b", "data-foo=bar"];
    JoinOfThree("hx-target=#a", "hx-target=#b", "data-foo=bar");
  }

  /** A rejected URI fails the whole conversion, whatever is appended after it. */
  method RejectedUri(validate: Validator, uri: string, ts: seq<A.HtmxTrigger>) returns (r: Result<string, HtmxError>)
    requires !ValidUri(validate, uri)
    ensures r == Err(InvalidUri(validate(uri).diag))
  {
    var b := new HtmxAttrs.Delete(uri);
    b.Triggers(ts);
    b.Extension("json-enc");
    b.Trigger(A.WithModifier(A.NewTrigger("click"), "once"));
    r := b.TryIntoString(validate);
    SeededFailsIffInvalidUri(validate, b.attrs);
  }

  /** A trigger list with no triggers loses its `=` to the final pop. */
  method EmptyTriggerList(validate: Validator) returns (r: Result<string, HtmxError>)
    requires ValidUri(validate, "/x")
    ensures r == Ok("hx-put=/x hx-trigger")
  {
    var b := new HtmxAttrs.Put("/x");
    b.Triggers([]);
    EmptyTriggerListAttrs(validate, b.attrs);
    EmptyTriggerListJoined();
    r := b.TryIntoString(validate);
  }

  /** The request converts to its token and the empty trigger list to a bare `hx-trigger`. */
  lemma EmptyTriggerListAttrs(validate: Validator, attrs: seq<A.HtmxAttr>)
    requires ValidUri(validate, "/x")
    requires attrs == [A.Request(A.HtmxRequest(A.Put, "/x")), A.Trigger([])]
    ensures Serialize(validate, attrs) == Ok(Trim(Join(" ", ["hx-put=/x", "hx-trigger"])))
  {
    var ss := ["hx-put=/x", "hx-trigger"];
    assert A.AttrString(validate, attrs[0]) == Ok(ss[0]) by {
      assert A.RequestTypeString(A.Put) + "=" + "/x" == ss[0];
    }
    SerializeConverted(validate, attrs, ss);
  }

  /** The two tokens, space-joined and trimmed, spell the expected string. */
  lemma EmptyTriggerListJoined()
    ensures Trim(Join(" ", ["hx-put=/x", "hx-trigger"])) == "hx-put=/x hx-trigger"
  {
    var ss := ["hx-put=/x", "hx-trigger"];
    calc {
      Trim(Join(" ", ss));
    == { TrimOfJoin(" ", ss); }  // no whitespace at either end of the join
      Join(" ", ss);
    == { assert ss[1..] == ["hx-trigger"]; }
      "hx-put=/x hx-trigger";
    }
  }

  /** The derived default collection is empty and refuses to serialize. */
  method DefaultIsEmpty(validate: Validator) returns (r: Result<string, HtmxError>)
    ensures r == Err(EmptyAttrs)
  {
    var b := new HtmxAttrs.Default();
    r := b.TryIntoString(validate);
  }
}
