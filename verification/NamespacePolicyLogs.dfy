/**
 What the log of a call can look like.  The client's copy of the namespace is a function of the log
 alone (`Knowledge`), and every entry fits what was known before it (`Legal`); all statements about
 who was touched, sent and stored, under any interference, follow from these two.
 */
module NamespacePolicyLogs {
  import opened NamespacePolicies

  type Annotations = map<string, string>

  /** A revision read adds what was not known; an update has put the template's key into the copy. */
  function Learn(known: Annotations, e: Event): Annotations {
    match e
    case Read(annotations) => annotations + known
    case Updated(key, _, _) => known[key := RESOLVED]
    case _ => known
  }

  function Knowledge(log: seq<Event>): Annotations {
    if log == [] then map[] else Learn(Knowledge(log[..|log| - 1]), log[|log| - 1])
  }

  /**
   Policies are touched, and keys added, only for keys not known so far; an update directly follows
   the creation of its policy, or the finding that it exists, and sends all that is known; and after
   the first read the namespace is read only on a refused update.
   */
  predicate Fits(log: seq<Event>, e: Event) {
    match e
    case Read(_) => log == [] || (log[|log| - 1].Updated? && !log[|log| - 1].accepted)
    case Updated(key, sent, _) =>
      && log != [] && Established(log[|log| - 1], key)
      && key !in Knowledge(log) && sent == Knowledge(log)[key := RESOLVED]
    case Deleted(_, key) => log != [] && key !in Knowledge(log)
    case Created(_, key) => log != [] && key !in Knowledge(log)
    case Existed(_, key) => log != [] && key !in Knowledge(log)
  }

  /** The policy is there now, created or found. */
  predicate Established(e: Event, key: string) {
    (e.Created? || e.Existed?) && e.key == key
  }

  predicate Legal(log: seq<Event>) {
    log == [] || (Legal(log[..|log| - 1]) && Fits(log[..|log| - 1], log[|log| - 1]))
  }

  lemma Append(log: seq<Event>, e: Event)
    ensures Legal(log + [e]) <==> Legal(log) && Fits(log, e)
    ensures Knowledge(log + [e]) == Learn(Knowledge(log), e)
  {
    assert (log + [e])[..|log|] == log;
  }

  // ---------------------------------------------------------------------------------------------
  // What legal logs guarantee.

  lemma {:induction false} FitsAt(log: seq<Event>, q: nat)
    requires Legal(log) && q < |log|
    ensures Fits(log[..q], log[q]) && Knowledge(log[..q + 1]) == Learn(Knowledge(log[..q]), log[q])
  {
    var front := log[..|log| - 1];
    if q < |front| {
      FitsAt(front, q);
      assert front[..q] == log[..q] && front[..q + 1] == log[..q + 1];
    } else {
      assert log[..q + 1] == log;
    }
  }

  /** Nothing known is ever forgotten or given another value. */
  lemma {:induction false} KnowledgeGrows(log: seq<Event>, p: nat, q: nat, k: string)
    requires Legal(log) && p <= q <= |log| && k in Knowledge(log[..p])
    ensures k in Knowledge(log[..q]) && Knowledge(log[..q])[k] == Knowledge(log[..p])[k]
    decreases q - p
  {
    if p < q {
      KnowledgeGrows(log, p, q - 1, k);
      KnowledgeStays(log, q - 1, k);
    }
  }

  lemma KnowledgeStays(log: seq<Event>, q: nat, k: string)
    requires Legal(log) && q < |log| && k in Knowledge(log[..q])
    ensures k in Knowledge(log[..q + 1]) && Knowledge(log[..q + 1])[k] == Knowledge(log[..q])[k]
  {
    FitsAt(log, q);
  }

  /** Once a revision read has a key, the call neither touches its policy nor updates for it. */
  lemma UntouchedOnceRead(log: seq<Event>, p: nat, q: nat)
    requires Legal(log) && p < q < |log| && log[p].Read? && !log[q].Read?
    ensures log[q].key !in log[p].annotations
  {
    FitsAt(log, p);
    FitsAt(log, q);
    if log[q].key in log[p].annotations {
      KnowledgeGrows(log, p + 1, q, log[q].key);
    }
  }

  lemma NotInFirstRead(log: seq<Event>, e: Event)
    requires Legal(log) && e in log && !e.Read? && log[0].Read?
    ensures e.key !in log[0].annotations
  {
    var q :| 0 <= q < |log| && log[q] == e;
    UntouchedOnceRead(log, 0, q);
  }

  /** What an update has sent goes with every later one, unchanged, and no earlier one had its key. */
  lemma SentsGrow(log: seq<Event>, p: nat, q: nat)
    requires Legal(log) && p < q < |log| && log[p].Updated? && log[q].Updated?
    ensures log[q].key !in log[p].sent
    ensures forall k :: k in log[p].sent ==> k in log[q].sent && log[q].sent[k] == log[p].sent[k]
  {
    FitsAt(log, p);
    FitsAt(log, q);
    forall k | k in log[p].sent
      ensures k != log[q].key && k in log[q].sent && log[q].sent[k] == log[p].sent[k]
    {
      KnowledgeGrows(log, p + 1, q, k);
    }
  }

  /** A template's key goes out with the value "resolved". */
  lemma UpdateSendsResolved(log: seq<Event>, p: nat)
    requires Legal(log) && p < |log| && log[p].Updated?
    ensures log[p].key in log[p].sent && log[p].sent[log[p].key] == "resolved"
  {
    FitsAt(log, p);
  }

  predicate Accepted(e: Event) {
    e.Updated? && e.accepted
  }

  /** The call has stored a template's key exactly when that template's update or a later one was accepted. */
  lemma StoredIffLaterAccepted(log: seq<Event>, p: nat)
    requires Legal(log) && p < |log| && log[p].Updated?
    ensures (exists q :: 0 <= q < |log| && Accepted(log[q]) && log[p].key in log[q].sent) <==> (exists q :: p <= q < |log| && Accepted(log[q]))
  {
    FitsAt(log, p);
    forall q | 0 <= q < |log| && Accepted(log[q])
      ensures log[p].key in log[q].sent <==> p <= q
    {
      if p < q {
        SentsGrow(log, p, q);
      } else if q < p {
        SentsGrow(log, q, p);
      }
    }
  }

  /** The entry that brings a key into the copy. */
  predicate Brings(e: Event, k: string, v: string) {
    match e
    case Read(annotations) => k in annotations && annotations[k] == v
    case Updated(key, _, _) => key == k && v == RESOLVED
    case _ => false
  }

  predicate Mentions(e: Event, k: string) {
    match e
    case Read(annotations) => k in annotations
    case Updated(key, _, _) => key == k
    case _ => false
  }

  /** The copy has for each key the value of the first entry with it; what others wrote later does not get in. */
  lemma {:induction false} FirstValueStays(log: seq<Event>, k: string) returns (p: nat)
    requires Legal(log) && k in Knowledge(log)
    ensures p < |log| && Brings(log[p], k, Knowledge(log)[k])
    ensures forall j :: 0 <= j < p ==> !Mentions(log[j], k)
  {
    var front := log[..|log| - 1];
    if k in Knowledge(front) {
      p := FirstValueStays(front, k);
    } else {
      p := |log| - 1;
      forall j | 0 <= j < p
        ensures !Mentions(log[j], k)
      {
        NotMentioned(front, k, j);
      }
    }
  }

  lemma {:induction false} NotMentioned(log: seq<Event>, k: string, j: nat)
    requires j < |log| && k !in Knowledge(log)
    ensures !Mentions(log[j], k)
  {
    if j < |log| - 1 {
      NotMentioned(log[..|log| - 1], k, j);
    }
  }

  /** Every update sends, for each key, the first value this call has seen. */
  lemma SentIsFirstSeen(log: seq<Event>, q: nat, k: string) returns (p: nat)
    requires Legal(log) && q < |log| && log[q].Updated? && k in log[q].sent
    ensures p <= q && Brings(log[p], k, log[q].sent[k])
    ensures forall j :: 0 <= j < p ==> !Mentions(log[j], k)
  {
    FitsAt(log, q);
    LegalPrefix(log, q + 1);
    p := FirstValueStays(log[..q + 1], k);
  }

  lemma {:induction false} LegalPrefix(log: seq<Event>, n: nat)
    requires Legal(log) && n <= |log|
    ensures Legal(log[..n])
  {
    if n < |log| {
      LegalPrefix(log[..|log| - 1], n);
      assert log[..|log| - 1][..n] == log[..n];
    } else {
      assert log[..n] == log;
    }
  }
}
