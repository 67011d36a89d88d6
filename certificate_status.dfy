/** What `_compute_expiry_date` decides about a company's A1 certificate:
    the state it reports, the expiry date it keeps and the subject text it
    shows, given what the PKCS#12 loading step produced. */
module CertificateStatus {
  import opened Wrappers
  import opened GeneralizedTime

  /** The selection `l10n_br_cert_state`; `NotLoaded` is its default. */
  datatype CertState = NotLoaded | Expired | InvalidPassword | Unknown | Valid

  /** The subject attributes CN, L, O and OU, as the certificate library gives them. */
  datatype Subject = Subject(cn: string, l: string, o: string, ou: string)

  /** Reading CN, L, O and OU off the subject, which happens only after the
      expiry date and the state have been written: the four values, an
      OpenSSL `crypto.Error`, or any other exception (text that is not
      UTF-8, say). */
  datatype SubjectRead = Attributes(subject: Subject) | AttributeCryptoError | AttributeOtherFailure

  /** The outcome of decoding the stored base64 text, opening it as PKCS#12
      with the password and taking its certificate and subject: an OpenSSL
      `crypto.Error`, any other exception, or the certificate's `notAfter`
      text with what reading the subject's attributes will give. */
  datatype LoadResult = CryptoError | OtherFailure | Loaded(notAfter: string, attributes: SubjectRead)

  /** The loading step for the stored certificate. An absent certificate
      (Odoo's False) makes base64 decoding raise a TypeError before the
      PKCS#12 library is reached. */
  function Load(certificate: Option<string>, password: Option<string>,
                openPkcs12: (string, Option<string>) -> LoadResult): (r: LoadResult)
    ensures certificate.None? ==> r == OtherFailure
    ensures certificate.Some? ==> r == openPkcs12(certificate.value, password)
  {
    match certificate
    case None => OtherFailure
    case Some(pfx) => openPkcs12(pfx, password)
  }

  /** The certificate's expiry, which exists exactly when loading succeeded
      and `notAfter` is the GeneralizedTime text of a valid date-time, and
      is then that date-time. */
  function Expiry(load: LoadResult): (r: Option<DateTime>)
    ensures r.Some? ==> load.Loaded? && ValidDateTime(r.value) && FormatNotAfter(r.value) == load.notAfter
    ensures load.Loaded? && r.None? ==>
      forall t :: ValidDateTime(t) ==> FormatNotAfter(t) != load.notAfter
  {
    if load.Loaded? then
      var r := ParseNotAfter(load.notAfter);
      if r.Some? then
        FormatParse(load.notAfter, r.value);
        r
      else
        assert forall t :: ValidDateTime(t) ==> FormatNotAfter(t) != load.notAfter by {
          forall t | ValidDateTime(t) ensures FormatNotAfter(t) != load.notAfter {
            ParseFormat(t);
          }
        }
        r
    else
      None
  }

  /** Every step of the computation ran: the expiry parsed and the subject's
      attributes were read. */
  predicate Completes(load: LoadResult) {
    Expiry(load).Some? && load.attributes.Attributes?
  }

  /** The state `_compute_expiry_date` leaves: the loading outcome and the
      timestamp parse are classified, a parsed expiry is compared strictly
      with `now`, and a failure reading the subject afterwards overrides
      that comparison. */
  function Classify(load: LoadResult, now: DateTime): (s: CertState)
    ensures s != NotLoaded
    ensures s == InvalidPassword <==>
      load.CryptoError? || (Expiry(load).Some? && load.attributes.AttributeCryptoError?)
    ensures s == Unknown <==>
      load.OtherFailure? || (load.Loaded? && Expiry(load).None?)
      || (Expiry(load).Some? && load.attributes.AttributeOtherFailure?)
    ensures s == Valid <==> Completes(load) && Before(now, Expiry(load).value)
    ensures s == Expired <==> Completes(load) && !Before(now, Expiry(load).value)
  {
    match load
    case CryptoError => InvalidPassword
    case OtherFailure => Unknown
    case Loaded(notAfter, attributes) =>
      match ParseNotAfter(notAfter)
      case None => Unknown
      case Some(end) =>
        match attributes
        case Attributes(_) => if Before(now, end) then Valid else Expired
        case AttributeCryptoError => InvalidPassword
        case AttributeOtherFailure => Unknown
  }

  /** A certificate is reported valid exactly when every step ran and the
      current time is strictly earlier than its `notAfter` instant. */
  lemma ValidIffStrictlyEarlier(load: LoadResult, now: DateTime)
    requires ValidDateTime(now)
    ensures Classify(load, now) == Valid <==>
      load.Loaded? && load.attributes.Attributes?
      && exists end :: Expiry(load) == Some(end) && Instant(now) < Instant(end)
  {
    if Expiry(load).Some? {
      var end := Expiry(load).value;
      BeforeIsChronological(now, end);
    }
  }

  /** For a certificate whose `notAfter` is the GeneralizedTime of `end`: it is
      valid before `end` and expired from `end` on, the boundary instant included. */
  lemma StrictBoundary(end: DateTime, subject: Subject, now: DateTime)
    requires ValidDateTime(end) && ValidDateTime(now)
    ensures Classify(Loaded(FormatNotAfter(end), Attributes(subject)), now)
            == if Instant(now) < Instant(end) then Valid else Expired
  {
    ParseFormat(end);
    BeforeIsChronological(now, end);
  }

  /** The text of `l10n_br_cert_information`: CN, L, O and OU on four lines,
      CN first and OU last. */
  function InfoText(subject: Subject): (r: string)
    ensures |r| == |subject.cn| + |subject.l| + |subject.o| + |subject.ou| + 3
    ensures r[..|subject.cn|] == subject.cn && r[|subject.cn|] == '\n'
    ensures r[|r| - |subject.ou|..] == subject.ou && r[|r| - |subject.ou| - 1] == '\n'
  {
    subject.cn + "\n" + subject.l + "\n" + subject.o + "\n" + subject.ou
  }

  predicate NoNewline(s: string) {
    forall i :: 0 <= i < |s| ==> s[i] != '\n'
  }

  /** The lines of a text, as Python's `s.split('\n')` gives them. */
  function SplitLines(s: string): (lines: seq<string>)
    ensures |lines| >= 1
  {
    if s == [] then [[]]
    else
      var rest := SplitLines(s[1..]);
      if s[0] == '\n' then [[]] + rest else [[s[0]] + rest[0]] + rest[1..]
  }

  lemma {:induction false} SplitLinesSingle(a: string)
    requires NoNewline(a)
    ensures SplitLines(a) == [a]
  {
    if a != [] {
      SplitLinesSingle(a[1..]);
      assert [a[0]] + a[1..] == a;
    }
  }

  lemma {:induction false} SplitLinesFirst(a: string, b: string)
    requires NoNewline(a)
    ensures SplitLines(a + "\n" + b) == [a] + SplitLines(b)
  {
    if a == [] {
      assert a + "\n" + b == "\n" + b;
      assert ("\n" + b)[1..] == b;
    } else {
      var s := a + "\n" + b;
      assert s[0] == a[0];
      assert s[1..] == a[1..] + "\n" + b;
      SplitLinesFirst(a[1..], b);
      assert [a[0]] + a[1..] == a;
    }
  }

  /** When no attribute contains a line break, the information text splits
      back into CN, L, O and OU, in that order. */
  lemma InfoTextLines(subject: Subject)
    requires NoNewline(subject.cn) && NoNewline(subject.l)
    requires NoNewline(subject.o) && NoNewline(subject.ou)
    ensures SplitLines(InfoText(subject)) == [subject.cn, subject.l, subject.o, subject.ou]
  {
    var Subject(cn, l, o, ou) := subject;
    assert InfoText(subject) == cn + "\n" + (l + "\n" + (o + "\n" + ou));
    SplitLinesFirst(cn, l + "\n" + (o + "\n" + ou));
    SplitLinesFirst(l, o + "\n" + ou);
    SplitLinesFirst(o, ou);
    SplitLinesSingle(ou);
  }
}
