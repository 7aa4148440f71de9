/** A code validator: a snippet and its language in, the validation logs (or
    the exception that ended validation) out. */
module CodeValidators {
  import opened Wrappers
  import opened Exceptions
  import opened Diagnostics
  import opened SupportedLanguages

  type Outcome = Result<seq<ValidationLog>, Exception>

  /** `validate(code, language)`; `None` stands for a `null` argument. */
  type Validator = (Option<string>, Option<SupportedLanguage>) -> Outcome

  /** A validation passes when it ends normally with no logs. */
  predicate Passes(o: Outcome) {
    o == Success([])
  }

  /** The body of a composed validator: the first validator's exception ends
      it before the second runs; otherwise the second's logs are appended to
      the first's, and its exception, if any, is the result. */
  function Combine(first: Outcome, next: Outcome): (r: Outcome)
    ensures r.Success? <==> first.Success? && next.Success?
    ensures r.Success? ==>
      |r.value| == |first.value| + |next.value| &&
      r.value[..|first.value|] == first.value && r.value[|first.value|..] == next.value
    ensures first.Failure? ==> r == first
    ensures first.Success? && next.Failure? ==> r == next
  {
    match first
    case Failure(e) => Failure(e)
    case Success(logs) =>
      match next
      case Failure(e) => Failure(e)
      case Success(more) => Success(logs + more)
  }

  /** `compose(nextValidator)`: both validators see the same input; the
      composition succeeds when both do, with the first one's logs first. */
  function Compose(v: Validator, next: Validator): (c: Validator)
    ensures forall code, language :: c(code, language).Success? <==> v(code, language).Success? && next(code, language).Success?
    ensures forall code, language :: c(code, language).Success? ==>
      c(code, language).value == v(code, language).value + next(code, language).value
  {
    (code, language) => Combine(v(code, language), next(code, language))
  }

  /** The validator that accepts everything. */
  function Accept(): Validator {
    (code, language) => Success([])
  }

  /** Composition groups either way. */
  lemma ComposeAssociative(a: Validator, b: Validator, c: Validator, code: Option<string>, language: Option<SupportedLanguage>)
    ensures Compose(Compose(a, b), c)(code, language) == Compose(a, Compose(b, c))(code, language)
  {
    var ra, rb, rc := a(code, language), b(code, language), c(code, language);
    if ra.Success? && rb.Success? && rc.Success? {
      assert ra.value + rb.value + rc.value == ra.value + (rb.value + rc.value);
    }
  }

  /** Composing with the accepting validator, on either side, changes nothing. */
  lemma AcceptIsIdentity(v: Validator, code: Option<string>, language: Option<SupportedLanguage>)
    ensures Compose(Accept(), v)(code, language) == v(code, language)
    ensures Compose(v, Accept())(code, language) == v(code, language)
  {
    var r := v(code, language);
    if r.Success? {
      assert [] + r.value == r.value;
      assert r.value + [] == r.value;
    }
  }

  /** A composed validator passes exactly when both parts pass. */
  lemma ComposePassesIff(a: Validator, b: Validator, code: Option<string>, language: Option<SupportedLanguage>)
    ensures Passes(Compose(a, b)(code, language)) <==> Passes(a(code, language)) && Passes(b(code, language))
  {
    var ra, rb := a(code, language), b(code, language);
    if Passes(Compose(a, b)(code, language)) {
      assert |ra.value| + |rb.value| == 0;
    }
  }

  /** Every log of either part is reported by the composition, and nothing else. */
  lemma ComposeKeepsEveryLog(a: Validator, b: Validator, code: Option<string>, language: Option<SupportedLanguage>, log: ValidationLog)
    requires a(code, language).Success? && b(code, language).Success?
    ensures log in Compose(a, b)(code, language).value <==> log in a(code, language).value || log in b(code, language).value
  {
    var ra, rb := a(code, language), b(code, language);
    assert Compose(a, b)(code, language).value == ra.value + rb.value;
  }
}
