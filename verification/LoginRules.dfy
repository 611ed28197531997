/** The login rules of internal/config/validate.go, checked leaf by leaf, and exactly where that stops short. */
module LoginRules {
  import opened Engine
  import opened EngineRuns
  import opened GoStrings
  import opened Hooks
  import opened Json
  import opened Leaves
  import opened MergePatch
  import opened Pointer
  import opened Rules
  import opened Schema

  const ENABLE_OIDC: Fields := map["oidc" := Obj(map["enabled" := Bool(true)])]

  const CLIENT_PATH: seq<string> := ["oidc", "client_id"]
  const ISSUER_PATH: seq<string> := ["oidc", "issuer"]

  lemma TwoKeyPointer(section: string, leaf: string)
    requires SafeKey(section) && SafeKey(leaf)
    ensures Extend("", [section, leaf]) == "/" + section + "/" + leaf
  {
    EscapeSafe(section);
    EscapeSafe(leaf);
    assert [section, leaf][1..] == [leaf];
    assert "" + "/" + section == "/" + section;
    assert Extend("", [section, leaf]) == Extend("/" + section, [leaf]);
    assert Extend("/" + section, [leaf]) == Extend("/" + section + "/" + leaf, []);
  }

  lemma LoginPointers()
    ensures Extend("", CLIENT_PATH) == CLIENT_ID && Extend("", ISSUER_PATH) == ISSUER
    ensures CLIENT_PATH != ISSUER_PATH
  {
    SafeText("oidc");
    SafeText("client_id");
    SafeText("issuer");
    TwoKeyPointer("oidc", "client_id");
    TwoKeyPointer("oidc", "issuer");
    assert CLIENT_PATH[1] != ISSUER_PATH[1] by { assert "client_id"[0] != "issuer"[0]; }
  }

  /** The login rules look at two leaves only. */
  lemma TwoLeaves(pf: Platform, path: seq<string>, value: Json, document: Fields)
    requires FlagOf(Get(FieldsOf(Get(document, "oidc")), "enabled"))
    ensures AuthRules(pf, Extend("", path), value, document) == [] <==>
            (path == CLIENT_PATH ==> !pf.isBlank(TextOf(value))) && (path == ISSUER_PATH ==> pf.isHttps(TextOf(value)))
  {
    LoginPointers();
    if Extend("", path) == CLIENT_ID { ExtendInjective("", path, CLIENT_PATH); }
    if Extend("", path) == ISSUER { ExtendInjective("", path, ISSUER_PATH); }
  }

  lemma AuthHook(pf: Platform, hook: Hook, pointer: string, value: Json, document: Fields)
    requires IsCodeRules(pf, hook)
    ensures hook(pointer, value, "auth", document) == AuthRules(pf, pointer, value, document)
  {
    assert hook(pointer, value, "auth", document) == CodeRules(pf, pointer, value, "auth", document);
  }

  predicate LoginEnabled(document: Fields) {
    FlagOf(Get(FieldsOf(Get(document, "oidc")), "enabled"))
  }

  /** The scope has a leaf other than null at the path. */
  predicate Sends(scope: Fields, path: seq<string>) {
    LeafAt(Obj(scope), path).Some? && !LeafAt(Obj(scope), path).value.Null?
  }

  predicate ClientProper(pf: Platform, document: Fields) {
    !pf.isBlank(TextOf(ValueAt(Obj(document), CLIENT_PATH)))
  }

  predicate IssuerProper(pf: Platform, document: Fields) {
    pf.isHttps(TextOf(ValueAt(Obj(document), ISSUER_PATH)))
  }

  predicate LoginLeafOk(pf: Platform, document: Fields, path: seq<string>) {
    (path == CLIENT_PATH ==> ClientProper(pf, document)) && (path == ISSUER_PATH ==> IssuerProper(pf, document))
  }

  lemma LoginLeaf(pf: Platform, hook: Hook, document: Fields, path: seq<string>)
    requires IsCodeRules(pf, hook)
    ensures hook(Extend("", path), ValueAt(Obj(document), path), "auth", document) == [] <==>
            (LoginEnabled(document) ==> LoginLeafOk(pf, document, path))
  {
    AuthHook(pf, hook, Extend("", path), ValueAt(Obj(document), path), document);
    if LoginEnabled(document) { TwoLeaves(pf, path, ValueAt(Obj(document), path), document); }
  }

  /**
   * What the login rules check, for every document and every scope: when the document enables login, the client id and
   * the issuer, each only if the scope sends it.
   */
  lemma LoginCheckedExactly(pf: Platform, hook: Hook, document: Fields, scope: Fields)
    requires IsCodeRules(pf, hook)
    ensures Passes(hook, "auth", document, scope) <==>
            (LoginEnabled(document) ==>
              (Sends(scope, CLIENT_PATH) ==> ClientProper(pf, document))
                  && (Sends(scope, ISSUER_PATH) ==> IssuerProper(pf, document)))
  {
    forall path ensures hook(Extend("", path), ValueAt(Obj(document), path), "auth", document) == [] <==>
                        (LoginEnabled(document) ==> LoginLeafOk(pf, document, path)) {
      LoginLeaf(pf, hook, document, path);
    }
    assert Passes(hook, "auth", document, scope) ==>
      forall path :: Sends(scope, path) ==> LoginEnabled(document) ==> LoginLeafOk(pf, document, path);
  }

  /** The evaluation of the auth schema counts the issuer once login is enabled: it must start with "https://". */
  ghost predicate ForcesHttps(setup: Setup)
    requires "auth" in setup.schemas
  {
    forall document ::
      setup.valid(setup.schemas["auth"], document) == [] && LoginEnabled(document) && Sends(document, ISSUER_PATH) ==>
        HasPrefix(TextOf(ValueAt(Obj(document), ISSUER_PATH)), "https://")
  }

  /**
   * Exactly when an accepted save stores a document that the next load refuses: the effective document enables login
   * and holds a blank client id, or an issuer without a host, that the patch did not send. Such an issuer starts with
   * "https://" all the same, for the schema is evaluated on every save.
   */
  lemma SavedLoginLoadsExactly(pf: Platform, setup: Setup, st: State, body: Fields, actor: string)
    requires IsCodeRules(pf, setup.writable) && NameCoherent(setup, st, "auth")
    requires Accepted(setup, st, "auth", body)
    ensures var draft := DraftOf(st, "auth", body);
            var filled := draft.filled;
            var clientMissed := Sends(filled, CLIENT_PATH) && !ClientProper(pf, filled);
            var issuerMissed := Sends(filled, ISSUER_PATH) && !IssuerProper(pf, filled);
            && (Loads(setup, Committed(st, draft, actor).files, "auth") <==>
                !(LoginEnabled(filled) && (clientMissed || issuerMissed)))
            && (LoginEnabled(filled) && clientMissed ==> !Sends(body, CLIENT_PATH))
            && (LoginEnabled(filled) && issuerMissed ==> !Sends(body, ISSUER_PATH))
            && (ForcesHttps(setup) && LoginEnabled(filled) && issuerMissed ==>
                  HasPrefix(TextOf(ValueAt(Obj(filled), ISSUER_PATH)), "https://"))
  {
    var draft := DraftOf(st, "auth", body);
    LoginCheckedExactly(pf, setup.writable, draft.filled, body);
    LoginCheckedExactly(pf, setup.writable, draft.filled, draft.filled);
    assert ReadRaw(Committed(st, draft, actor).files, "auth") == Some(draft.merged);
  }

  /** The input: a patch that only enables login passes the login rules of a save, whatever the document holds. */
  lemma EnablingLoginIsCheckedLate(pf: Platform, hook: Hook, after: Fields)
    requires IsCodeRules(pf, hook)
    ensures Passes(hook, "auth", after, ENABLE_OIDC)
    ensures LoginEnabled(after) && Sends(after, CLIENT_PATH) && !ClientProper(pf, after) ==>
        !Passes(hook, "auth", after, after)
    ensures LoginEnabled(after) && Sends(after, ISSUER_PATH) && !IssuerProper(pf, after) ==>
        !Passes(hook, "auth", after, after)
  {
    LoginCheckedExactly(pf, hook, after, ENABLE_OIDC);
    LoginCheckedExactly(pf, hook, after, after);
    assert CLIENT_PATH[1..] == ["client_id"] && ISSUER_PATH[1..] == ["issuer"];
    assert LeafAt(Obj(ENABLE_OIDC), CLIENT_PATH) == LeafAt(ENABLE_OIDC["oidc"], ["client_id"]);
    assert LeafAt(Obj(ENABLE_OIDC), ISSUER_PATH) == LeafAt(ENABLE_OIDC["oidc"], ["issuer"]);
    assert "client_id" != "enabled" && "issuer" != "enabled";
  }
}
