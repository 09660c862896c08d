/** The linked-action footer of a Solana action card
    (src/components/wrappers/solanaActionBox.tsx): the `refs` table of input
    boxes, one slot per action parameter, and the placeholder substitution
    that `handleSubmit` applies to a linked action's URL before posting it.
    `linkedActionHref` is not part of this model: its result is an input of
    `HandleSubmit`, and so is `encodeURI`, as a function. */
module SolanaActionBox {
  import opened Wrappers
  import opened JsStrings

  /** An action parameter; only its name takes part in substitution. */
  datatype ActionParameter = ActionParameter(name: string)

  /** A linked action: its URL template and, optionally, its parameters. */
  datatype LinkedAction = LinkedAction(href: string, parameters: Option<seq<ActionParameter>>)

  /** A mounted `<input>` box, seen through the text it holds when the action
      is submitted. */
  datatype InputBox = InputBox(value: string)

  /** Reading `.value` of a slot nothing was mounted in throws; the position
      is that of the first such slot. */
  datatype SubmitError = InputNotMounted(position: nat)

  type Slots = seq<Option<InputBox>>

  // ---------------------------------------------------------------------
  // Placeholder substitution (lines 34-42)
  // ---------------------------------------------------------------------

  /** `'{' + name + '}'`. */
  function Template(name: string): string {
    "{" + name + "}"
  }

  /** `elm.value || template`: an empty box stands for the placeholder
      itself. */
  function InputValue(text: string, template: string): string {
    if text != "" then text else template
  }

  /** One iteration of the `map` callback: when the URL holds the template
      or its `encodeURI` form, every raw occurrence is replaced, then every
      encoded one. */
  function Substitute(url: string, name: string, text: string, encode: string -> string): string {
    var template := Template(name);
    var value := InputValue(text, template);
    var encoded := encode(template);
    if Contains(url, template) || Contains(url, encoded) then
      ReplaceAll(ReplaceAll(url, template, value), encoded, value)
    else url
  }

  /** The URL after the parameters have been processed in declaration order,
      each with the text of its box, or the error the first unmounted box
      raises. */
  function SubmitUrl(url: string, params: seq<ActionParameter>, slots: Slots, encode: string -> string): Result<string, SubmitError>
    requires |params| == |slots|
  {
    SubmitFrom(url, params, slots, encode, 0)
  }

  /** The same, from parameter `i` on, for the URL built so far. */
  function SubmitFrom(url: string, params: seq<ActionParameter>, slots: Slots, encode: string -> string, i: nat): Result<string, SubmitError>
    requires |params| == |slots| && i <= |params|
    decreases |params| - i
  {
    if i == |params| then Ok(url)
    else
      match slots[i]
      case None => Err(InputNotMounted(i))
      case Some(box) => SubmitFrom(Substitute(url, params[i].name, box.value, encode), params, slots, encode, i + 1)
  }

  /** What `handleSubmit` posts to: the `linkedActionHref` result as it is for
      an action without parameters, else with its placeholders
      substituted. */
  function PostUrl(action: LinkedAction, slots: Option<Slots>, baseUrl: string, encode: string -> string): Result<string, SubmitError>
    requires action.parameters.Some? ==> slots.Some? && |slots.value| == |action.parameters.value|
  {
    match action.parameters
    case None => Ok(baseUrl)
    case Some(params) => SubmitUrl(baseUrl, params, slots.value, encode)
  }

  /** An action without parameters posts to `linkedActionHref`'s result
      unchanged, and so does one whose parameter list is empty. */
  lemma PostWithoutParameters(action: LinkedAction, slots: Option<Slots>, baseUrl: string, encode: string -> string)
    requires action.parameters.None? || (action.parameters == Some([]) && slots == Some([]))
    ensures PostUrl(action, slots, baseUrl, encode) == Ok(baseUrl)
  {
  }

  /** A URL holding neither the template nor its encoded form is left as it
      is; otherwise both `replaceAll` calls run. */
  lemma SubstituteCases(url: string, name: string, text: string, encode: string -> string)
    ensures !Contains(url, Template(name)) && !Contains(url, encode(Template(name))) ==>
      Substitute(url, name, text, encode) == url
    ensures !Contains(url, Template(name)) && !Contains(url, encode(Template(name))) ==>
      Substitute(url, name, text, encode) == ReplaceAll(ReplaceAll(url, Template(name), InputValue(text, Template(name))), encode(Template(name)), InputValue(text, Template(name)))
    ensures Contains(url, Template(name)) || Contains(url, encode(Template(name))) ==>
      Substitute(url, name, text, encode) == ReplaceAll(ReplaceAll(url, Template(name), InputValue(text, Template(name))), encode(Template(name)), InputValue(text, Template(name)))
  {
    var template := Template(name);
    var value := InputValue(text, template);
    var encoded := encode(template);
    if !Contains(url, template) && !Contains(url, encoded) {
      ReplaceAllAbsent(url, template, value);
      ReplaceAllAbsent(url, encoded, value);
    }
  }

  /** An empty box leaves the raw placeholders as they are (the first
      `replaceAll` puts the template back in place of itself) and turns the
      encoded ones into the raw form. */
  lemma EmptyInputRestoresRaw(url: string, name: string, encode: string -> string)
    requires '$' !in name
    ensures Substitute(url, name, "", encode) == ReplaceAll(url, encode(Template(name)), Template(name))
    ensures !Contains(url, encode(Template(name))) ==> Substitute(url, name, "", encode) == url
  {
    var template := Template(name);
    assert '$' !in template by {
      assert template == ['{'] + name + ['}'];
    }
    ReplaceAllSelf(url, template);
    if !Contains(url, encode(template)) {
      ReplaceAllAbsent(url, encode(template), template);
    }
  }

  /** Submission fails exactly when some box is unmounted, and then it names
      the first one. */
  lemma {:induction false} SubmitFromFails(url: string, params: seq<ActionParameter>, slots: Slots, encode: string -> string, i: nat)
    requires |params| == |slots| && i <= |params|
    ensures SubmitFrom(url, params, slots, encode, i).Err? <==> exists k :: i <= k < |slots| && slots[k].None?
    ensures SubmitFrom(url, params, slots, encode, i).Err? ==>
      var k := SubmitFrom(url, params, slots, encode, i).error.position;
      i <= k < |slots| && slots[k].None? && forall j :: i <= j < k ==> slots[j].Some?
    decreases |params| - i
  {
    if i < |params| && slots[i].Some? {
      SubmitFromFails(Substitute(url, params[i].name, slots[i].value.value, encode), params, slots, encode, i + 1);
    }
  }

  /** Parameters are processed in declaration order: the last one is
      substituted into the URL the earlier ones produced. */
  lemma {:induction false} SubmitFromAppend(url: string, params: seq<ActionParameter>, slots: Slots, p: ActionParameter, box: Option<InputBox>, encode: string -> string, i: nat)
    requires |params| == |slots| && i <= |params|
    ensures SubmitFrom(url, params + [p], slots + [box], encode, i) ==
      match SubmitFrom(url, params, slots, encode, i)
      case Err(e) => Err(e)
      case Ok(u) =>
        match box
        case None => Err(InputNotMounted(|params|))
        case Some(b) => Ok(Substitute(u, p.name, b.value, encode))
    decreases |params| - i
  {
    var ps, ss := params + [p], slots + [box];
    if i < |params| {
      assert ps[i] == params[i] && ss[i] == slots[i];
      if slots[i].Some? {
        SubmitFromAppend(Substitute(url, params[i].name, slots[i].value.value, encode), params, slots, p, box, encode, i + 1);
      }
    } else {
      assert ps[i] == p && ss[i] == box;
    }
  }

  /** The last parameter acts on what the others made of the URL. */
  lemma SubmitLast(url: string, params: seq<ActionParameter>, slots: Slots, p: ActionParameter, b: InputBox, encode: string -> string)
    requires |params| == |slots|
    requires SubmitUrl(url, params, slots, encode).Ok?
    ensures SubmitUrl(url, params + [p], slots + [Some(b)], encode) ==
      Ok(Substitute(SubmitUrl(url, params, slots, encode).value, p.name, b.value, encode))
  {
    SubmitFromAppend(url, params, slots, p, Some(b), encode, 0);
  }

  /** Substitution is sequential. Here the URL is the first placeholder
      `{a}`, the first box holds the second placeholder `{b}` and the second
      box holds `x`: the second step fills in what the first one wrote, and
      the URL becomes `x`. */
  lemma ChainedPlaceholders(nameA: string, nameB: string, text: string, encode: string -> string)
    requires nameA == "a" && nameB == "b" && text == "x"
    requires encode(Template(nameA)) == "%7Ba%7D" && encode(Template(nameB)) == "%7Bb%7D"
    ensures SubmitUrl(Template(nameA), [ActionParameter(nameA), ActionParameter(nameB)],
      [Some(InputBox(Template(nameB))), Some(InputBox(text))], encode) == Ok(text)
  {
    var params := [ActionParameter(nameA), ActionParameter(nameB)];
    var slots := [Some(InputBox(Template(nameB))), Some(InputBox(text))];
    var first, second := Template(nameA), Template(nameB);
    assert first == ['{', 'a', '}'] && second == ['{', 'b', '}'];
    ReplaceAllWhole(first, second);
    LongerAbsent(second, encode(first));
    ReplaceAllAbsent(second, encode(first), second);
    ContainsIff(first, first);
    assert OccursAt(first, first, 0);
    assert Substitute(first, nameA, second, encode) == second;
    ReplaceAllWhole(second, text);
    LongerAbsent(text, encode(second));
    ReplaceAllAbsent(text, encode(second), text);
    ContainsIff(second, second);
    assert OccursAt(second, second, 0);
    assert Substitute(second, nameB, text, encode) == text;
    assert SubmitFrom(text, params, slots, encode, 2) == Ok(text);
    assert SubmitFrom(second, params, slots, encode, 1) == Ok(text);
  }

  // ---------------------------------------------------------------------
  // The refs table (lines 21-29)
  // ---------------------------------------------------------------------

  /** `actions.map(...)`: an empty slot per parameter, and no slot list for
      an action without parameters. */
  function InitialRefs(actions: seq<LinkedAction>): (refs: seq<Option<Slots>>)
    ensures |refs| == |actions|
    ensures forall i :: 0 <= i < |refs| ==> (refs[i].None? <==> actions[i].parameters.None?)
    ensures forall i :: 0 <= i < |refs| && refs[i].Some? ==>
      |refs[i].value| == |actions[i].parameters.value| && forall j :: 0 <= j < |refs[i].value| ==> refs[i].value[j].None?
  {
    seq(|actions|, i requires 0 <= i < |actions| =>
      match actions[i].parameters
      case None => None
      case Some(ps) => Some(seq(|ps|, j => None)))
  }

  /** The table of `ActionBoxFooter`: the actions it renders and the input
      boxes mounted so far. */
  class ActionBoxFooter {
    const actions: seq<LinkedAction>
    var refs: seq<Option<Slots>>

    /** `refs` has a slot list exactly for the actions with parameters, one
        slot per parameter. */
    ghost predicate Shaped()
      reads this
    {
      && |refs| == |actions|
      && forall i :: 0 <= i < |refs| ==>
        && (refs[i].None? <==> actions[i].parameters.None?)
        && (refs[i].Some? ==> |refs[i].value| == |actions[i].parameters.value|)
    }

    constructor(actions: seq<LinkedAction>)
      ensures this.actions == actions
      ensures refs == InitialRefs(actions)
      ensures Shaped()
    {
      this.actions := actions;
      refs := InitialRefs(actions);
    }

    /** `refs[index][_index] = el`, as the rendering calls it for a mounted
        parameter box. */
    method SetRef(el: InputBox, index: nat, slot: nat)
      requires index < |refs| && refs[index].Some? && slot < |refs[index].value|
      modifies this
      ensures refs == old(refs)[index := Some(old(refs)[index].value[slot := Some(el)])]
      ensures old(Shaped()) ==> Shaped()
    {
      var slots := refs[index].value;
      refs := refs[index := Some(slots[slot := Some(el)])];
    }

    /** The URL half of `handleSubmit(index)`: `baseUrl` is the
        `linkedActionHref` result, and each parameter's placeholder is
        substituted in turn while the loop reads the boxes. */
    method HandleSubmit(index: nat, baseUrl: string, encode: string -> string) returns (r: Result<string, SubmitError>)
      requires Shaped() && index < |actions|
      ensures r == PostUrl(actions[index], refs[index], baseUrl, encode)
    {
      var apiUrl := baseUrl;
      if actions[index].parameters.None? {
        return Ok(apiUrl);
      }
      var params := actions[index].parameters.value;
      var slots := refs[index].value;
      var i := 0;
      while i < |slots|
        invariant 0 <= i <= |slots|
        invariant SubmitFrom(apiUrl, params, slots, encode, i) == SubmitUrl(baseUrl, params, slots, encode)
      {
        if slots[i].None? {
          return Err(InputNotMounted(i));
        }
        var template := "{" + params[i].name + "}";
        var value := if slots[i].value.value != "" then slots[i].value.value else template;
        if Contains(apiUrl, template) || Contains(apiUrl, encode(template)) {
          apiUrl := ReplaceAll(apiUrl, template, value);
          apiUrl := ReplaceAll(apiUrl, encode(template), value);
        }
        i := i + 1;
      }
      return Ok(apiUrl);
    }
  }
}
