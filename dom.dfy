/** The field resolver of the injected prefill and login scripts
    (`queryFirst`, `tryPrefillInDoc`, `tryPrefillAndClick`,
    `executeLoginPrefill`, `executeLogin`, `clickLoginButtonOnly`).
    A document is what `querySelector` answers for the selectors the scripts
    use; element values and the clicks and submissions the scripts cause are
    the state of a `Page`. */
module Dom {
  import opened Wrappers

  type FieldId = nat
  type FormId = nat
  type Selector = string

  /** `doc.querySelector(s)` is `doc[s]` when `s in doc`, null otherwise. */
  type Doc = map<Selector, FieldId>

  /** An iframe as the top document sees it: its `contentDocument` is null
      (or reading it throws) for a cross-origin frame. */
  datatype Frame = Inaccessible | Accessible(doc: Doc)

  /** The loaded page: the top document, its iframes in document order, the
      position among them of the first iframe named or with id "Main", and
      the form (`closest('form')`) enclosing each element that has one. */
  datatype PageTree = PageTree(top: Doc, iframes: seq<Frame>, main: Option<nat>, forms: map<FieldId, FormId>)

  /** Effects the scripts have on the page besides field values. */
  datatype Action = Click(button: FieldId) | Submit(form: FormId)

  /** The username and password inputs found in one document. */
  datatype LoginFields = LoginFields(user: FieldId, pass: FieldId)

  const UsernameSelectors: seq<Selector> := [
    "input[name=\"id\"]", "input#id", ".input-id", "input[name=\"userid\"]", "input[name=\"username\"]",
    "input[name=\"student_id\"]", "input#userId", "input#userid", "input#loginId",
    "input[type=\"text\"]:not([name=\"captcha\"])"
  ]

  const PasswordSelectors: seq<Selector> := [
    "input[name=\"pwd\"]", "input#pwd", ".input-pw", "input[name=\"password\"]", "input[name=\"passwd\"]",
    "input#password", "input#passwd", "input[type=\"password\"]"
  ]

  /** One selector group: `querySelector` returns its first match in document order. */
  const LoginButtonSelector: Selector :=
    "button#btn-login, .btn-login, button[type=\"button\"], input[type=\"submit\"], button[type=\"submit\"], .btn_login, .login_btn"

  /** The matcher configuration: ordered selector lists for the two inputs and
      the button selector group. The scripts always use `LoginMatchers`. */
  datatype Matchers = Matchers(user: seq<Selector>, pass: seq<Selector>, button: Selector)

  const LoginMatchers: Matchers := Matchers(UsernameSelectors, PasswordSelectors, LoginButtonSelector)

  predicate NoMatchBefore(doc: Doc, sels: seq<Selector>, i: int)
    requires 0 <= i <= |sels|
  {
    forall j :: 0 <= j < i ==> sels[j] !in doc
  }

  /** First-match-wins over an ordered selector list. */
  function FirstMatch(doc: Doc, sels: seq<Selector>): (r: Option<FieldId>)
    ensures r.None? <==> NoMatchBefore(doc, sels, |sels|)
    ensures r.Some? ==> exists i :: 0 <= i < |sels| && sels[i] in doc && doc[sels[i]] == r.value
                                    && NoMatchBefore(doc, sels, i)
  {
    if sels == [] then None
    else if sels[0] in doc then
      assert NoMatchBefore(doc, sels, 0);
      Some(doc[sels[0]])
    else
      var r := FirstMatch(doc, sels[1..]);
      if r.Some? then
        var i :| 0 <= i < |sels[1..]| && sels[1..][i] in doc && doc[sels[1..][i]] == r.value
                 && NoMatchBefore(doc, sels[1..], i);
        assert NoMatchBefore(doc, sels, i + 1);
        r
      else
        r
  }

  /** `queryFirst(doc, selectors)`: the for loop with early return. */
  method QueryFirst(doc: Doc, selectors: seq<Selector>) returns (r: Option<FieldId>)
    ensures r == FirstMatch(doc, selectors)
  {
    for i := 0 to |selectors|
      invariant FirstMatch(doc, selectors) == FirstMatch(doc, selectors[i..])
    {
      assert selectors[i..][1..] == selectors[i + 1..];
      if selectors[i] in doc {
        return Some(doc[selectors[i]]);
      }
    }
    return None;
  }

  /** Both inputs of one document, or nothing. */
  function FieldsIn(m: Matchers, doc: Doc): Option<LoginFields> {
    var u := FirstMatch(doc, m.user);
    var p := FirstMatch(doc, m.pass);
    if u.Some? && p.Some? then Some(LoginFields(u.value, p.value)) else None
  }

  /** The values after the username and then the password input are written. */
  function Filled(values: map<FieldId, string>, fields: Option<LoginFields>, username: string, password: string): map<FieldId, string> {
    match fields
    case None => values
    case Some(f) => values[f.user := username][f.pass := password]
  }

  /** Writing changes the two inputs found and nothing else; the password wins
      when both lists resolve to the same element. */
  lemma FilledTouchesOnlyFields(values: map<FieldId, string>, f: LoginFields, username: string, password: string)
    ensures var v := Filled(values, Some(f), username, password);
            v.Keys == values.Keys + {f.user, f.pass} &&
            v[f.pass] == password && (f.user != f.pass ==> v[f.user] == username) &&
            forall x :: x in values && x != f.user && x != f.pass ==> v[x] == values[x]
  {
  }

  /** The first document of `docs` holding both inputs. */
  function FirstFillable(m: Matchers, docs: seq<Doc>): (r: Option<LoginFields>)
    ensures r.None? <==> forall i :: 0 <= i < |docs| ==> FieldsIn(m, docs[i]).None?
    ensures r.Some? ==> exists i :: 0 <= i < |docs| && FieldsIn(m, docs[i]) == r
                                    && forall j :: 0 <= j < i ==> FieldsIn(m, docs[j]).None?
  {
    if docs == [] then None
    else if FieldsIn(m, docs[0]).Some? then FieldsIn(m, docs[0])
    else
      var r := FirstFillable(m, docs[1..]);
      if r.Some? then
        var i :| 0 <= i < |docs[1..]| && FieldsIn(m, docs[1..][i]) == r
                 && forall j :: 0 <= j < i ==> FieldsIn(m, docs[1..][j]).None?;
        assert FieldsIn(m, docs[i + 1]) == r;
        r
      else
        r
  }

  lemma FirstFillableAppend(m: Matchers, a: seq<Doc>, b: seq<Doc>)
    ensures FirstFillable(m, a + b) == if FirstFillable(m, a).Some? then FirstFillable(m, a) else FirstFillable(m, b)
  {
    if a != [] {
      assert (a + b)[1..] == a[1..] + b;
      FirstFillableAppend(m, a[1..], b);
    } else {
      assert a + b == b;
    }
  }

  /** The readable documents of `frames`, in document order. */
  function AccessibleDocs(frames: seq<Frame>): (r: seq<Doc>)
    ensures forall d :: d in r ==> Accessible(d) in frames
  {
    if frames == [] then []
    else
      var last := frames[|frames| - 1];
      AccessibleDocs(frames[..|frames| - 1]) + (if last.Accessible? then [last.doc] else [])
  }

  /** The Main iframe's document, when there is one and it is readable. */
  function MainScope(tree: PageTree): seq<Doc> {
    match tree.main
    case Some(k) => if k < |tree.iframes| && tree.iframes[k].Accessible? then [tree.iframes[k].doc] else []
    case None => []
  }

  /** The documents the prefill and login scripts try, in order: the Main
      iframe, every readable iframe, then the top document. */
  function SearchScopes(tree: PageTree): seq<Doc> {
    MainScope(tree) + (AccessibleDocs(tree.iframes) + [tree.top])
  }

  /** The documents `clickLoginButtonOnly` tries: the Main iframe, then the top document. */
  function ClickScopes(tree: PageTree): seq<Doc> {
    MainScope(tree) + [tree.top]
  }

  /** The inputs the prefill writes. */
  function PrefillTarget(m: Matchers, tree: PageTree): Option<LoginFields> {
    FirstFillable(m, SearchScopes(tree))
  }

  /** Every searched document is the top document or a readable iframe:
      inaccessible frames are skipped. */
  lemma ScopesAreReadable(m: Matchers, tree: PageTree)
    ensures forall d :: d in SearchScopes(tree) ==> d == tree.top || Accessible(d) in tree.iframes
  {
    forall d | d in SearchScopes(tree) ensures d == tree.top || Accessible(d) in tree.iframes {
      if d in MainScope(tree) {
        assert tree.iframes[tree.main.value] == Accessible(d);
      }
    }
  }

  /** A readable Main iframe holding both inputs is the one filled. */
  lemma MainIframeFirst(m: Matchers, tree: PageTree)
    requires tree.main.Some? && tree.main.value < |tree.iframes|
    requires tree.iframes[tree.main.value].Accessible?
    requires FieldsIn(m, tree.iframes[tree.main.value].doc).Some?
    ensures PrefillTarget(m, tree) == FieldsIn(m, tree.iframes[tree.main.value].doc)
  {
    FirstFillableAppend(m, MainScope(tree), AccessibleDocs(tree.iframes) + [tree.top]);
  }

  /** Readable documents of a concatenation, in order. */
  lemma {:induction false} AccessibleDocsAppend(a: seq<Frame>, b: seq<Frame>)
    ensures AccessibleDocs(a + b) == AccessibleDocs(a) + AccessibleDocs(b)
    decreases |b|
  {
    if b == [] {
      assert a + b == a;
    } else {
      var n := |b| - 1;
      assert (a + b)[..|a + b| - 1] == a + b[..n];
      assert (a + b)[|a + b| - 1] == b[n];
      AccessibleDocsAppend(a, b[..n]);
    }
  }

  lemma AccessibleDocsPrefix(frames: seq<Frame>, i: nat)
    requires i < |frames|
    ensures AccessibleDocs(frames[..i + 1]) ==
            AccessibleDocs(frames[..i]) + (if frames[i].Accessible? then [frames[i].doc] else [])
  {
    assert frames[..i + 1][..i] == frames[..i];
  }

  lemma AccessibleDocsSplit(frames: seq<Frame>, i: nat)
    requires i < |frames|
    ensures AccessibleDocs(frames) == AccessibleDocs(frames[..i + 1]) + AccessibleDocs(frames[i + 1..])
  {
    assert frames == frames[..i + 1] + frames[i + 1..];
    AccessibleDocsAppend(frames[..i + 1], frames[i + 1..]);
  }

  lemma {:induction false} AccessibleDocsNoneFillable(m: Matchers, frames: seq<Frame>, i: nat)
    requires i <= |frames|
    requires forall j :: 0 <= j < i && frames[j].Accessible? ==> FieldsIn(m, frames[j].doc).None?
    ensures FirstFillable(m, AccessibleDocs(frames[..i])) == None
  {
    if i > 0 {
      AccessibleDocsNoneFillable(m, frames, i - 1);
      AccessibleDocsPrefix(frames, i - 1);
      FirstFillableAppend(m, AccessibleDocs(frames[..i - 1]), if frames[i - 1].Accessible? then [frames[i - 1].doc] else []);
    }
  }

  /** Skipping a prefix where nothing is fillable lands on the first fillable document. */
  lemma FirstFillableSkip(m: Matchers, a: seq<Doc>, x: Doc, rest: seq<Doc>)
    requires FirstFillable(m, a).None? && FieldsIn(m, x).Some?
    ensures FirstFillable(m, a + [x] + rest) == FieldsIn(m, x)
  {
    assert a + [x] + rest == a + ([x] + rest);
    FirstFillableAppend(m, a, [x] + rest);
    FirstFillableHead(m, x, rest);
  }

  lemma FirstFillableSingle(m: Matchers, x: Doc)
    ensures FirstFillable(m, [x]) == FieldsIn(m, x)
  {
    assert [x][1..] == [];
  }

  lemma FirstFillableHead(m: Matchers, x: Doc, rest: seq<Doc>)
    requires FieldsIn(m, x).Some?
    ensures FirstFillable(m, [x] + rest) == FieldsIn(m, x)
  {
    assert ([x] + rest)[0] == x;
  }

  /** Document order among iframes: when the Main iframe does not yield both
      inputs, the first readable iframe that does is the one filled. */
  lemma IframesInDocumentOrder(m: Matchers, tree: PageTree, i: nat)
    requires FirstFillable(m, MainScope(tree)).None?
    requires i < |tree.iframes| && tree.iframes[i].Accessible? && FieldsIn(m, tree.iframes[i].doc).Some?
    requires forall j :: 0 <= j < i && tree.iframes[j].Accessible? ==> FieldsIn(m, tree.iframes[j].doc).None?
    ensures PrefillTarget(m, tree) == FieldsIn(m, tree.iframes[i].doc)
  {
    var fr := tree.iframes;
    var x := fr[i].doc;
    var before := AccessibleDocs(fr[..i]);
    var after := AccessibleDocs(fr[i + 1..]) + [tree.top];
    AccessibleDocsSplit(fr, i);
    AccessibleDocsPrefix(fr, i);
    AccessibleDocsNoneFillable(m, fr, i);
    assert AccessibleDocs(fr) + [tree.top] == before + [x] + after;
    FirstFillableSkip(m, before, x, after);
    FirstFillableAppend(m, MainScope(tree), before + [x] + after);
  }

  /** The top document is tried last: it is filled only when no readable
      iframe holds both inputs. */
  lemma TopDocumentLast(m: Matchers, tree: PageTree)
    requires forall j :: 0 <= j < |tree.iframes| && tree.iframes[j].Accessible? ==> FieldsIn(m, tree.iframes[j].doc).None?
    ensures PrefillTarget(m, tree) == FieldsIn(m, tree.top)
  {
    var docs := AccessibleDocs(tree.iframes);
    AccessibleDocsNoneFillable(m, tree.iframes, |tree.iframes|);
    assert tree.iframes[..|tree.iframes|] == tree.iframes;
    FirstFillableAppend(m, docs, [tree.top]);
    FirstFillableSingle(m, tree.top);
    if MainScope(tree) != [] {
      FirstFillableSingle(m, tree.iframes[tree.main.value].doc);
    }
    FirstFillableAppend(m, MainScope(tree), docs + [tree.top]);
  }

  /** The first button of `docs` matched by the login button selector group. */
  function FirstButton(m: Matchers, docs: seq<Doc>): (r: Option<FieldId>)
    ensures r.None? <==> forall i :: 0 <= i < |docs| ==> m.button !in docs[i]
    ensures r.Some? ==> exists i :: 0 <= i < |docs| && m.button in docs[i]
                                    && docs[i][m.button] == r.value
                                    && forall j :: 0 <= j < i ==> m.button !in docs[j]
  {
    if docs == [] then None
    else if m.button in docs[0] then Some(docs[0][m.button])
    else
      var r := FirstButton(m, docs[1..]);
      if r.Some? then
        var i :| 0 <= i < |docs[1..]| && m.button in docs[1..][i]
                 && docs[1..][i][m.button] == r.value
                 && forall j :: 0 <= j < i ==> m.button !in docs[1..][j];
        assert m.button in docs[i + 1];
        r
      else
        r
  }

  /** What `tryPrefillAndClick` does to one document once both inputs are
      found: click the button if any, otherwise submit the form of the
      username input or else of the password input, otherwise nothing. */
  function SubmitAction(m: Matchers, tree: PageTree, doc: Doc, f: LoginFields): Option<Action> {
    if m.button in doc then Some(Click(doc[m.button]))
    else if f.user in tree.forms then Some(Submit(tree.forms[f.user]))
    else if f.pass in tree.forms then Some(Submit(tree.forms[f.pass]))
    else None
  }

  /** The final values, actions and result of `executeLogin` over `docs`:
      every document holding both inputs is filled until one also yields a
      click or a submission. */
  function LoginRun(m: Matchers, tree: PageTree, docs: seq<Doc>, values: map<FieldId, string>, actions: seq<Action>,
                    username: string, password: string): (r: (bool, map<FieldId, string>, seq<Action>))
    ensures r.0 <==> exists i :: 0 <= i < |docs| && FieldsIn(m, docs[i]).Some?
                                 && SubmitAction(m, tree, docs[i], FieldsIn(m, docs[i]).value).Some?
    ensures |r.2| == |actions| + (if r.0 then 1 else 0) && r.2[..|actions|] == actions
  {
    if docs == [] then (false, values, actions)
    else
      var f := FieldsIn(m, docs[0]);
      if f.None? then
        var r := LoginRun(m, tree, docs[1..], values, actions, username, password);
        assert forall i :: 1 <= i < |docs| ==> docs[i] == docs[1..][i - 1];
        r
      else
        var v := Filled(values, f, username, password);
        var a := SubmitAction(m, tree, docs[0], f.value);
        if a.Some? then (true, v, actions + [a.value])
        else
          var r := LoginRun(m, tree, docs[1..], v, actions, username, password);
          assert forall i :: 1 <= i < |docs| ==> docs[i] == docs[1..][i - 1];
          r
  }

  /** One step of `LoginRun`: the first document either ends the run or is
      filled (when it holds both inputs) before the rest is tried. */
  lemma LoginRunStep(m: Matchers, tree: PageTree, docs: seq<Doc>, values: map<FieldId, string>, actions: seq<Action>,
                     username: string, password: string)
    requires docs != []
    ensures var f := FieldsIn(m, docs[0]);
            var v := Filled(values, f, username, password);
            LoginRun(m, tree, docs, values, actions, username, password) ==
            if f.Some? && SubmitAction(m, tree, docs[0], f.value).Some?
            then (true, v, actions + [SubmitAction(m, tree, docs[0], f.value).value])
            else LoginRun(m, tree, docs[1..], v, actions, username, password)
  {
  }

  /** A scope in which `tryPrefillAndClick` succeeds: both inputs and a
      button or an enclosing form. */
  predicate Submits(m: Matchers, tree: PageTree, doc: Doc) {
    FieldsIn(m, doc).Some? && SubmitAction(m, tree, doc, FieldsIn(m, doc).value).Some?
  }

  /** The values after filling every scope of `docs` that holds both inputs, in order. */
  function FillEach(m: Matchers, values: map<FieldId, string>, docs: seq<Doc>, username: string, password: string)
    : map<FieldId, string>
    decreases |docs|
  {
    if docs == [] then values
    else FillEach(m, Filled(values, FieldsIn(m, docs[0]), username, password), docs[1..], username, password)
  }

  /** First success wins: the login run records the action of the first
      scope where it succeeds, after filling that scope and every earlier one
      holding both inputs, and tries nothing after it. */
  lemma {:induction false} LoginRunFirstSuccess(m: Matchers, tree: PageTree, docs: seq<Doc>, values: map<FieldId, string>,
                                                actions: seq<Action>, username: string, password: string, i: nat)
    requires i < |docs| && Submits(m, tree, docs[i])
    requires forall j :: 0 <= j < i ==> !Submits(m, tree, docs[j])
    ensures LoginRun(m, tree, docs, values, actions, username, password) ==
            (true, FillEach(m, values, docs[..i + 1], username, password),
             actions + [SubmitAction(m, tree, docs[i], FieldsIn(m, docs[i]).value).value])
  {
    var v := Filled(values, FieldsIn(m, docs[0]), username, password);
    FillEachPrefix(m, values, docs, i + 1, username, password);
    if i == 0 {
      LoginRunHit(m, tree, docs, values, actions, username, password);
    } else {
      LoginRunSkip(m, tree, docs, values, actions, username, password);
      NoSubmitsInTail(m, tree, docs, i);
      LoginRunFirstSuccess(m, tree, docs[1..], v, actions, username, password, i - 1);
    }
  }

  /** Dropping the first scope shifts the scopes where the login does not succeed. */
  lemma NoSubmitsInTail(m: Matchers, tree: PageTree, docs: seq<Doc>, i: nat)
    requires 0 < i <= |docs|
    requires forall j :: 0 <= j < i ==> !Submits(m, tree, docs[j])
    ensures forall j :: 0 <= j < i - 1 ==> !Submits(m, tree, docs[1..][j])
    ensures i < |docs| ==> docs[1..][i - 1] == docs[i]
  {
    forall j | 0 <= j < i - 1 ensures !Submits(m, tree, docs[1..][j]) {
      assert docs[1..][j] == docs[j + 1];
    }
  }

  /** Filling a non-empty prefix fills its first scope, then the rest of it. */
  lemma FillEachPrefix(m: Matchers, values: map<FieldId, string>, docs: seq<Doc>, k: nat, username: string, password: string)
    requires 0 < k <= |docs|
    ensures FillEach(m, values, docs[..k], username, password) ==
            FillEach(m, Filled(values, FieldsIn(m, docs[0]), username, password), docs[1..][..k - 1], username, password)
  {
    assert docs[..k][0] == docs[0] && docs[..k][1..] == docs[1..][..k - 1];
  }

  /** A first scope where the login succeeds ends the run with its action. */
  lemma LoginRunHit(m: Matchers, tree: PageTree, docs: seq<Doc>, values: map<FieldId, string>,
                    actions: seq<Action>, username: string, password: string)
    requires docs != [] && Submits(m, tree, docs[0])
    ensures LoginRun(m, tree, docs, values, actions, username, password) ==
            (true, Filled(values, FieldsIn(m, docs[0]), username, password),
             actions + [SubmitAction(m, tree, docs[0], FieldsIn(m, docs[0]).value).value])
  {
    LoginRunStep(m, tree, docs, values, actions, username, password);
  }

  /** A first scope where the login does not succeed is filled and passed over. */
  lemma LoginRunSkip(m: Matchers, tree: PageTree, docs: seq<Doc>, values: map<FieldId, string>,
                     actions: seq<Action>, username: string, password: string)
    requires docs != [] && !Submits(m, tree, docs[0])
    ensures LoginRun(m, tree, docs, values, actions, username, password) ==
            LoginRun(m, tree, docs[1..], Filled(values, FieldsIn(m, docs[0]), username, password), actions, username, password)
  {
    LoginRunStep(m, tree, docs, values, actions, username, password);
  }

  /** When no scope succeeds, every scope holding both inputs is filled and no
      action is recorded. */
  lemma {:induction false} LoginRunNoSuccess(m: Matchers, tree: PageTree, docs: seq<Doc>, values: map<FieldId, string>,
                                             actions: seq<Action>, username: string, password: string)
    requires forall j :: 0 <= j < |docs| ==> !Submits(m, tree, docs[j])
    ensures LoginRun(m, tree, docs, values, actions, username, password) ==
            (false, FillEach(m, values, docs, username, password), actions)
  {
    if docs != [] {
      LoginRunSkip(m, tree, docs, values, actions, username, password);
      NoSubmitsInTail(m, tree, docs, |docs|);
      LoginRunNoSuccess(m, tree, docs[1..], Filled(values, FieldsIn(m, docs[0]), username, password), actions, username, password);
    }
  }

  class Page {
    const tree: PageTree
    const matchers: Matchers
    /** The `value` of every input element. */
    var values: map<FieldId, string>
    /** Clicks and form submissions, in the order the scripts caused them. */
    var actions: seq<Action>

    constructor (tree: PageTree, values: map<FieldId, string>)
      ensures this.tree == tree && this.values == values && actions == []
      ensures matchers == LoginMatchers
    {
      this.tree := tree;
      matchers := LoginMatchers;
      this.values := values;
      actions := [];
    }

    /** `tryPrefillInDoc(doc)`: writes both inputs when both are found. */
    method TryPrefillInDoc(doc: Doc, username: string, password: string) returns (ok: bool)
      modifies this`values
      ensures ok <==> FieldsIn(matchers, doc).Some?
      ensures values == Filled(old(values), FieldsIn(matchers, doc), username, password)
    {
      var u := QueryFirst(doc, matchers.user);
      var p := QueryFirst(doc, matchers.pass);
      ok := false;
      if u.Some? && p.Some? {
        values := values[u.value := username];
        values := values[p.value := password];
        ok := true;
      }
    }

    /** The injected prefill script of `executeLoginPrefill`. */
    method ExecuteLoginPrefill(username: string, password: string) returns (ok: bool)
      modifies this`values
      ensures ok <==> PrefillTarget(matchers, tree).Some?
      ensures values == Filled(old(values), PrefillTarget(matchers, tree), username, password)
    {
      var mainDocs := MainScope(tree);
      var rest := AccessibleDocs(tree.iframes) + [tree.top];
      FirstFillableAppend(matchers, mainDocs, rest);
      FirstFillableAppend(matchers, AccessibleDocs(tree.iframes), [tree.top]);
      if mainDocs != [] {
        ok := TryPrefillInDoc(mainDocs[0], username, password);
        if ok {
          return;
        }
      }
      ok := PrefillIframes(username, password);
      if ok {
        return;
      }
      ok := TryPrefillInDoc(tree.top, username, password);
    }

    /** The loop over every iframe, skipping the unreadable ones. */
    method PrefillIframes(username: string, password: string) returns (ok: bool)
      modifies this`values
      ensures ok <==> FirstFillable(matchers, AccessibleDocs(tree.iframes)).Some?
      ensures values == Filled(old(values), FirstFillable(matchers, AccessibleDocs(tree.iframes)), username, password)
    {
      var frames := tree.iframes;
      for i := 0 to |frames|
        invariant values == old(values)
        invariant FirstFillable(matchers, AccessibleDocs(frames[..i])) == None
      {
        AccessibleDocsPrefix(frames, i);
        var extra: seq<Doc> := if frames[i].Accessible? then [frames[i].doc] else [];
        FirstFillableAppend(matchers, AccessibleDocs(frames[..i]), extra);
        if frames[i].Accessible? {
          ok := TryPrefillInDoc(frames[i].doc, username, password);
          if ok {
            AccessibleDocsSplit(frames, i);
            FirstFillableAppend(matchers, AccessibleDocs(frames[..i + 1]), AccessibleDocs(frames[i + 1..]));
            return;
          }
        }
      }
      assert frames[..|frames|] == frames;
      return false;
    }

    /** `tryPrefillAndClick(doc)`: fill, then click or submit. */
    method TryPrefillAndClick(doc: Doc, username: string, password: string) returns (ok: bool)
      modifies this`values, this`actions
      ensures var f := FieldsIn(matchers, doc);
              ok <==> f.Some? && SubmitAction(matchers, tree, doc, f.value).Some?
      ensures values == Filled(old(values), FieldsIn(matchers, doc), username, password)
      ensures actions == old(actions) + (if ok then [SubmitAction(matchers, tree, doc, FieldsIn(matchers, doc).value).value] else [])
    {
      var u := QueryFirst(doc, matchers.user);
      var p := QueryFirst(doc, matchers.pass);
      ok := false;
      if u.Some? && p.Some? {
        values := values[u.value := username];
        values := values[p.value := password];
        if matchers.button in doc {
          actions := actions + [Click(doc[matchers.button])];
          ok := true;
        } else if u.value in tree.forms {
          actions := actions + [Submit(tree.forms[u.value])];
          ok := true;
        } else if p.value in tree.forms {
          actions := actions + [Submit(tree.forms[p.value])];
          ok := true;
        }
      }
    }

    /** The injected login script of `executeLogin`, over the same scopes as the prefill. */
    method ExecuteLogin(username: string, password: string) returns (ok: bool)
      modifies this`values, this`actions
      ensures (ok, values, actions) == LoginRun(matchers, tree, SearchScopes(tree), old(values), old(actions), username, password)
    {
      var docs := SearchScopes(tree);
      var i := 0;
      ok := false;
      while i < |docs|
        invariant 0 <= i <= |docs|
        invariant LoginRun(matchers, tree, docs, old(values), old(actions), username, password)
               == LoginRun(matchers, tree, docs[i..], values, actions, username, password)
      {
        assert docs[i..][1..] == docs[i + 1..] && docs[i..][0] == docs[i];
        ghost var before := (values, actions);
        ok := TryPrefillAndClick(docs[i], username, password);
        LoginRunStep(matchers, tree, docs[i..], before.0, before.1, username, password);
        if ok {
          return;
        }
        assert actions == before.1;
        assert values == Filled(before.0, FieldsIn(matchers, docs[i]), username, password);
        assert LoginRun(matchers, tree, docs[i..], before.0, before.1, username, password)
            == LoginRun(matchers, tree, docs[i + 1..], values, actions, username, password);
        i := i + 1;
      }
    }

    /** `clickLoginButtonOnly`: the Main iframe, then the top document. */
    method ClickLoginButtonOnly() returns (ok: bool)
      modifies this`actions
      ensures ok <==> FirstButton(matchers, ClickScopes(tree)).Some?
      ensures actions == old(actions) + (if ok then [Click(FirstButton(matchers, ClickScopes(tree)).value)] else [])
    {
      var docs := ClickScopes(tree);
      if |docs| == 2 && matchers.button in docs[0] {
        actions := actions + [Click(docs[0][matchers.button])];
        return true;
      }
      var top := docs[|docs| - 1];
      assert FirstButton(matchers, docs) == FirstButton(matchers, [top]);
      ok := matchers.button in top;
      if ok {
        actions := actions + [Click(top[matchers.button])];
      }
    }
  }
}
