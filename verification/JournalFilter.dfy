/** What a caller looks for in a journal, and which records answer. */
module JournalFilter {
  import opened Wrappers

  /** A field of a parsed record: text, or some other JSON value. */
  datatype Value = Text(text: string) | NotText
  type Fields = map<string, Value>

  const HEALTH_PROBE_EVENT_TYPE := "LOGGING_CHAIN_PROBE"

  datatype JournalFilter = JournalFilter(
    eventType: Option<string>, account: Option<string>, remoteAddr: Option<string>,
    shortCode: Option<string>, since: Option<string>, until: Option<string>)
  {
    predicate IsEmpty() {
      !Set(eventType) && !Set(account) && !Set(remoteAddr) && !Set(shortCode) && !Set(since) && !Set(until)
    }

    predicate Matches(fields: Fields) {
      if Has(fields, "event_type", HEALTH_PROBE_EVENT_TYPE) && eventType != Some(HEALTH_PROBE_EVENT_TYPE) then false
      else if IsEmpty() then true
      else if fields == map[] then false
      else if Set(eventType) && !Has(fields, "event_type", eventType.value) then false
      else if Set(account) && !Has(fields, "user_id", account.value) && !Has(fields, "target_user_id", account.value) then false
      else if Set(remoteAddr) && !Has(fields, "remote_addr", remoteAddr.value) then false
      else if Set(shortCode) && !Has(fields, "short_code", shortCode.value) then false
      else WithinTheRange(if "timestamp" in fields then Some(fields["timestamp"]) else None)
    }

    predicate WithinTheRange(stamp: Option<Value>) {
      if !Set(since) && !Set(until) then true
      else if stamp.None? || stamp.value.NotText? then false
      else
        var text := stamp.value.text;
        if Set(since) && TextLess(Cut(text, |since.value|), since.value) then false
        else if Set(until) && TextLess(until.value, Cut(text, |until.value|)) then false
        else true
    }
  }

  const Anything := JournalFilter(None, None, None, None, None, None)

  /** An absent term and an empty one ask for nothing alike. */
  predicate Set(term: Option<string>) {
    term.Some? && term.value != ""
  }

  predicate Has(fields: Fields, key: string, text: string) {
    key in fields && fields[key] == Text(text)
  }

  /** `s[:n]` */
  function Cut(s: string, n: nat): string {
    if |s| <= n then s else s[..n]
  }

  /** Text order, character by character. */
  predicate TextLess(a: string, b: string) {
    if b == "" then false
    else if a == "" then true
    else a[0] < b[0] || (a[0] == b[0] && TextLess(a[1..], b[1..]))
  }

  /** Cutting a stamp to the bound's length does not change whether it is before the bound. */
  lemma {:induction false} CutKeepsBefore(stamp: string, bound: string)
    ensures TextLess(Cut(stamp, |bound|), bound) <==> TextLess(stamp, bound)
  {
    if stamp != "" && bound != "" && stamp[0] == bound[0] {
      CutKeepsBefore(stamp[1..], bound[1..]);
      assert Cut(stamp, |bound|)[1..] == Cut(stamp[1..], |bound[1..]|);
    }
  }

  /** After it, the cut lets in every stamp the bound is a prefix of. */
  lemma {:induction false} CutAdmitsPrefix(stamp: string, bound: string)
    ensures TextLess(bound, Cut(stamp, |bound|)) <==> TextLess(bound, stamp) && !(bound <= stamp)
  {
    if stamp != "" && bound != "" && stamp[0] == bound[0] {
      CutAdmitsPrefix(stamp[1..], bound[1..]);
      assert Cut(stamp, |bound|)[1..] == Cut(stamp[1..], |bound[1..]|);
      assert bound <= stamp <==> bound[1..] <= stamp[1..] by {
        assert bound == [bound[0]] + bound[1..] && stamp == [stamp[0]] + stamp[1..];
      }
    }
  }

  /**
   A bounded search is an interval of text closed at both ends: nothing before
   `since`, nothing after `until`, and every stamp inside the period `until`
   names belongs to it.
   */
  lemma RangeIsClosed(f: JournalFilter, stamp: string)
    ensures f.WithinTheRange(Some(Text(stamp))) <==>
      && (Set(f.since) ==> !TextLess(stamp, f.since.value))
      && (Set(f.until) ==> !TextLess(f.until.value, stamp) || f.until.value <= stamp)
  {
    if Set(f.since) {
      CutKeepsBefore(stamp, f.since.value);
    }
    if Set(f.until) {
      CutAdmitsPrefix(stamp, f.until.value);
    }
  }

  /** `TextLess` is the order of a dictionary: the first difference decides, and a prefix comes first. */
  lemma {:induction false} TextOrder(a: string, b: string)
    ensures TextLess(a, b) <==> exists k :: DiffersAt(a, b, k)
  {
    if b == "" {
    } else if a == "" {
      assert DiffersAt(a, b, 0);
    } else if a[0] != b[0] {
      assert a[0] < b[0] ==> DiffersAt(a, b, 0);
    } else {
      TextOrder(a[1..], b[1..]);
      if TextLess(a[1..], b[1..]) {
        var k :| DiffersAt(a[1..], b[1..], k);
        assert a[..k + 1] == [a[0]] + a[1..][..k] && b[..k + 1] == [b[0]] + b[1..][..k];
        assert DiffersAt(a, b, k + 1);
      }
      if k :| DiffersAt(a, b, k) {
        assert a[..k][0] == b[..k][0] || k == 0;
        assert a[1..][..k - 1] == a[..k][1..] && b[1..][..k - 1] == b[..k][1..];
        assert DiffersAt(a[1..], b[1..], k - 1);
      }
    }
  }

  /** Alike up to `k`, where `a` ends or has the smaller character. */
  predicate DiffersAt(a: string, b: string, k: int) {
    0 <= k < |b| && k <= |a| && a[..k] == b[..k] && (k == |a| || a[k] < b[k])
  }

  /* -------------------- what a search means -------------------- */

  /** What can be looked for by value. */
  datatype Term = EventType | Account | RemoteAddr | ShortCode {
    function Sought(f: JournalFilter): Option<string> {
      match this
      case EventType => f.eventType
      case Account => f.account
      case RemoteAddr => f.remoteAddr
      case ShortCode => f.shortCode
    }

    /** The fields of a record any one of which may hold it. */
    function Fields(): set<string> {
      match this
      case EventType => {"event_type"}
      case Account => {"user_id", "target_user_id"}
      case RemoteAddr => {"remote_addr"}
      case ShortCode => {"short_code"}
    }
  }

  /** Either the term was not asked for, or one of its fields holds it. */
  predicate Answered(term: Term, f: JournalFilter, fields: Fields) {
    Set(term.Sought(f)) ==> exists key :: key in term.Fields() && Has(fields, key, term.Sought(f).value)
  }

  /** A bounded search wants a stamp, and one in the closed interval. */
  predicate StampAnswers(f: JournalFilter, fields: Fields) {
    Set(f.since) || Set(f.until) ==>
      && "timestamp" in fields && fields["timestamp"].Text?
      && var stamp := fields["timestamp"].text;
         && (Set(f.since) ==> !TextLess(stamp, f.since.value))
         && (Set(f.until) ==> !TextLess(f.until.value, stamp) || f.until.value <= stamp)
  }

  /**
   What a search finds: every record that is not a probe of the chains' own health,
   unless probes were asked for by name, and that answers each thing asked for.
   */
  lemma MatchesExactly(f: JournalFilter, fields: Fields)
    ensures f.Matches(fields) <==>
      && (Has(fields, "event_type", "LOGGING_CHAIN_PROBE") ==> f.eventType == Some("LOGGING_CHAIN_PROBE"))
      && (forall term: Term :: Answered(term, f, fields))
      && StampAnswers(f, fields)
  {
    AnsweredOne(EventType, f, fields, "event_type");
    AnsweredOne(RemoteAddr, f, fields, "remote_addr");
    AnsweredOne(ShortCode, f, fields, "short_code");
    AnsweredAccount(f, fields);
    assert (forall term: Term :: Answered(term, f, fields)) <==>
      Answered(EventType, f, fields) && Answered(Account, f, fields) && Answered(RemoteAddr, f, fields) && Answered(ShortCode, f, fields);
    if "timestamp" in fields && fields["timestamp"].Text? {
      RangeIsClosed(f, fields["timestamp"].text);
    }
  }

  lemma AnsweredOne(term: Term, f: JournalFilter, fields: Fields, key: string)
    requires term.Fields() == {key}
    ensures Answered(term, f, fields) <==> (Set(term.Sought(f)) ==> Has(fields, key, term.Sought(f).value))
  {
    assert key in term.Fields();
  }

  lemma AnsweredAccount(f: JournalFilter, fields: Fields)
    ensures Answered(Account, f, fields) <==>
      (Set(f.account) ==> Has(fields, "user_id", f.account.value) || Has(fields, "target_user_id", f.account.value))
  {
    assert "user_id" in Account.Fields() && "target_user_id" in Account.Fields();
  }
}
