/** The texts that stand for assertions in identities. They are a parameter of everything that builds
    identities; of them it is only used that keys have different texts and that no text contains the
    separator. The product's own texts meet that. */
module AssertionTexts {
  import opened Identity
  import opened ApplicabilityContracts

  /** The text of an assertion's key, and the identity of the invariant it checks. */
  datatype Texts = Texts(key: AssertionKey -> string, invariantId: AssertionKey -> string)

  ghost predicate GoodTexts(t: Texts) {
    && (forall k :: UNIT_SEPARATOR !in t.key(k) && UNIT_SEPARATOR !in t.invariantId(k))
    && (forall k, l :: t.key(k) == t.key(l) ==> k == l)
  }

  function KeyText(k: AssertionKey): string {
    match k
    case SG01_VALUE => "VALUE_EXACTLY_ONCE_AT_POLICY_THRESHOLD"
    case SG02_VALUE => "DUPLICATE_VALUE_AT_MOST_ONCE"
    case SG03_VALUE => "RETRY_VALUE_AT_MOST_ONCE"
    case SG04_VALUE => "OUT_OF_ORDER_VALUE_AT_MOST_ONCE"
    case SG04_REGRESSION => "MERCHANT_STATE_DOES_NOT_REGRESS"
    case SG05_MUTATION => "FORGED_WEBHOOK_NO_TRUSTED_MUTATION"
    case SG05_VALUE => "FORGED_WEBHOOK_NO_CUSTOMER_VALUE"
    case SG06_MUTATION => "TAMPERED_CALLBACK_NO_TRUSTED_MUTATION"
    case SG06_VALUE => "TAMPERED_CALLBACK_NO_CUSTOMER_VALUE"
    case SG07_VALUE => "WEBHOOK_OUTCOME_WITHOUT_CALLBACK"
    case SG08_PRECAPTURE => "LATE_AUTHORIZATION_PROVIDES_NO_VALUE"
    case SG08_CAPTURE => "LATE_PAYMENT_VALUE_ONCE_AFTER_CAPTURE"
    case SG08_VALUE => "LATE_PAYMENT_POLICY_OUTCOME"
  }

  function InvariantText(k: AssertionKey): string {
    match k
    case SG01_VALUE => "NORMAL_CAPTURE_VALUE_EXACTLY_ONCE"
    case SG02_VALUE => "DUPLICATE_DELIVERY_VALUE_AT_MOST_ONCE"
    case SG03_VALUE => "MODELED_RETRY_VALUE_AT_MOST_ONCE"
    case SG04_VALUE => "OUT_OF_ORDER_VALUE_AT_MOST_ONCE"
    case SG04_REGRESSION => "MERCHANT_STATE_DOES_NOT_REGRESS"
    case SG05_MUTATION => "FORGED_WEBHOOK_NO_MUTATION_COMPLETION"
    case SG05_VALUE => "FORGED_WEBHOOK_NO_CUSTOMER_VALUE"
    case SG06_MUTATION => "TAMPERED_CHECKOUT_NO_MUTATION_COMPLETION"
    case SG06_VALUE => "TAMPERED_CHECKOUT_NO_CUSTOMER_VALUE"
    case SG07_VALUE => "WEBHOOK_OUTCOME_WITHOUT_CALLBACK"
    case SG08_PRECAPTURE => "LATE_AUTHORIZATION_NO_PRECAPTURE_VALUE"
    case SG08_CAPTURE => "LATE_PAYMENT_VALUE_ONCE_AFTER_CAPTURE"
    case SG08_VALUE => "LATE_PAYMENT_POLICY_OUTCOME"
  }

  predicate Plain(s: string) {
    forall i :: 0 <= i < |s| ==> s[i] != UNIT_SEPARATOR
  }

  lemma SimpleKeysArePlain()
    ensures Plain(KeyText(SG01_VALUE))
    ensures Plain(KeyText(SG02_VALUE))
    ensures Plain(KeyText(SG03_VALUE))
    ensures Plain(KeyText(SG04_VALUE))
    ensures Plain(KeyText(SG04_REGRESSION))
    ensures Plain(KeyText(SG05_MUTATION))
    ensures Plain(KeyText(SG05_VALUE))
  {
  }

  lemma OtherKeysArePlain()
    ensures Plain(KeyText(SG06_MUTATION))
    ensures Plain(KeyText(SG06_VALUE))
    ensures Plain(KeyText(SG07_VALUE))
    ensures Plain(KeyText(SG08_PRECAPTURE))
    ensures Plain(KeyText(SG08_CAPTURE))
    ensures Plain(KeyText(SG08_VALUE))
  {
  }

  lemma SimpleInvariantsArePlain()
    ensures Plain(InvariantText(SG01_VALUE))
    ensures Plain(InvariantText(SG02_VALUE))
    ensures Plain(InvariantText(SG03_VALUE))
    ensures Plain(InvariantText(SG04_VALUE))
    ensures Plain(InvariantText(SG04_REGRESSION))
    ensures Plain(InvariantText(SG05_MUTATION))
    ensures Plain(InvariantText(SG05_VALUE))
  {
  }

  lemma OtherInvariantsArePlain()
    ensures Plain(InvariantText(SG06_MUTATION))
    ensures Plain(InvariantText(SG06_VALUE))
    ensures Plain(InvariantText(SG07_VALUE))
    ensures Plain(InvariantText(SG08_PRECAPTURE))
    ensures Plain(InvariantText(SG08_CAPTURE))
    ensures Plain(InvariantText(SG08_VALUE))
  {
  }

  /** Length and a few letters tell the key texts apart. */
  function Mark(s: string): (int, char, char) {
    (|s|, if |s| > 5 then s[5] else ' ', if |s| > 13 then s[13] else ' ')
  }

  lemma SimpleMarks()
    ensures Mark(KeyText(SG01_VALUE)) == (38, '_', '_')
    ensures Mark(KeyText(SG02_VALUE)) == (28, 'C', 'U')
    ensures Mark(KeyText(SG03_VALUE)) == (24, '_', 'T')
    ensures Mark(KeyText(SG04_VALUE)) == (31, 'F', 'V')
    ensures Mark(KeyText(SG04_REGRESSION)) == (31, 'A', 'E')
    ensures Mark(KeyText(SG05_MUTATION)) == (34, 'D', 'K')
    ensures Mark(KeyText(SG05_VALUE)) == (32, 'D', 'K')
  {
  }

  lemma OtherMarks()
    ensures Mark(KeyText(SG06_MUTATION)) == (37, 'R', 'B')
    ensures Mark(KeyText(SG06_VALUE)) == (35, 'R', 'B')
    ensures Mark(KeyText(SG07_VALUE)) == (32, 'O', 'M')
    ensures Mark(KeyText(SG08_PRECAPTURE)) == (36, 'A', 'A')
    ensures Mark(KeyText(SG08_CAPTURE)) == (37, 'P', 'V')
    ensures Mark(KeyText(SG08_VALUE)) == (27, 'P', 'P')
  {
  }

  lemma KeyTextsDiffer(k: AssertionKey, l: AssertionKey)
    requires KeyText(k) == KeyText(l)
    ensures k == l
  {
    hide KeyText, Mark;
    SimpleMarks();
    OtherMarks();
    assert Mark(KeyText(k)) == Mark(KeyText(l));
  }

  lemma TextsArePlain(k: AssertionKey)
    ensures Plain(KeyText(k)) && Plain(InvariantText(k))
  {
    hide KeyText, InvariantText, Plain;
    SimpleKeysArePlain();
    OtherKeysArePlain();
    SimpleInvariantsArePlain();
    OtherInvariantsArePlain();
  }

  /** The product's texts can be used. */
  lemma ProductTextsAreGood()
    ensures GoodTexts(Texts(KeyText, InvariantText))
  {
    hide KeyText, InvariantText;
    forall k
      ensures UNIT_SEPARATOR !in KeyText(k) && UNIT_SEPARATOR !in InvariantText(k)
    {
      TextsArePlain(k);
    }
    forall k, l | KeyText(k) == KeyText(l)
      ensures k == l
    {
      KeyTextsDiffer(k, l);
    }
  }
}
