/** A cached view of VerticalPodAutoscalers, refreshed by listing, and the events that tell a consumer
    which namespaces to read again (`internal/vpa/poller.go`, `internal/eligibility/vpa.go`). */
module VpaPoller {
  import opened Options
  import opened Sets

  type Namespace = string

  datatype ContainerPolicy = ContainerPolicy(
    container: string, mode: string, resources: Option<seq<string>>, values: string)

  datatype Vpa = Vpa(name: string, targetKind: string, targetName: string, updateMode: string,
                     policies: Option<seq<ContainerPolicy>>)

  type View = map<Namespace, seq<Vpa>>

  /** A listed object; None where its spec does not decode. */
  datatype Item = Item(ns: Namespace, vpa: Option<Vpa>)

  datatype Failure = NotServed | NotAllowed | Broken

  datatype Reply = Failed(why: Failure) | Page(items: seq<Item>, token: string)

  datatype Listing = Listed(view: View) | Errored(why: Failure)

  /** What `ForNamespace` returns. */
  function At(view: View, ns: Namespace): seq<Vpa> {
    if ns in view then view[ns] else []
  }

  // ---- Listing ----

  function Add(view: View, ns: Namespace, v: Vpa): View {
    view[ns := At(view, ns) + [v]]
  }

  /** `parse`, from the first item to the last. */
  function Collect(items: seq<Item>, view: View): Option<View> {
    if items == [] then Some(view)
    else
      var front, last := Collect(items[..|items| - 1], view), items[|items| - 1];
      if front.None? || last.vpa.None? then None else Some(Add(front.value, last.ns, last.vpa.value))
  }

  /** `list`: page after page; past the replies given, the API is down. */
  function ListFrom(replies: seq<Reply>, view: View): Listing
    decreases |replies|
  {
    if replies == [] then Errored(Broken)
    else
      match replies[0]
      case Failed(why) => Errored(why)
      case Page(items, token) =>
        match Collect(items, view)
        case None => Errored(Broken)
        case Some(more) => if token == "" then Listed(more) else ListFrom(replies[1..], more)
  }

  /** The namespace's objects, in the order listed. */
  function InNamespace(items: seq<Item>, ns: Namespace): seq<Vpa> {
    if items == [] then []
    else
      var last := items[|items| - 1];
      InNamespace(items[..|items| - 1], ns) + (if last.ns == ns && last.vpa.Some? then [last.vpa.value] else [])
  }

  function AllItems(replies: seq<Reply>): seq<Item>
    decreases |replies|
  {
    if replies == [] then []
    else (if replies[0].Page? then replies[0].items else []) + AllItems(replies[1..])
  }

  predicate Decodes(items: seq<Item>) {
    forall i :: 0 <= i < |items| ==> items[i].vpa.Some?
  }

  /** The API served the whole list in these replies: each but the last points to the next, and every
      object decodes. */
  predicate IsWhole(replies: seq<Reply>) {
    && replies != []
    && (forall i :: 0 <= i < |replies| ==> replies[i].Page? && Decodes(replies[i].items))
    && (forall i :: 0 <= i < |replies| - 1 ==> replies[i].token != "")
    && replies[|replies| - 1].token == ""
  }

  /** A namespace has an entry where something was listed in it, and its entry is all of that. */
  ghost predicate IsViewOf(view: View, items: seq<Item>) {
    forall ns :: At(view, ns) == InNamespace(items, ns) && (ns in view ==> view[ns] != [])
  }

  lemma {:induction false} InNamespaceConcat(a: seq<Item>, b: seq<Item>, ns: Namespace)
    ensures InNamespace(a + b, ns) == InNamespace(a, ns) + InNamespace(b, ns)
  {
    if b == [] {
      assert a + b == a;
    } else {
      var front := b[..|b| - 1];
      InNamespaceConcat(a, front, ns);
      assert (a + b)[..|a + b| - 1] == a + front;
    }
  }

  lemma {:induction false} CollectAdds(items: seq<Item>, view: View, before: seq<Item>)
    requires IsViewOf(view, before)
    ensures Collect(items, view).Some? <==> Decodes(items)
    ensures Collect(items, view).Some? ==> IsViewOf(Collect(items, view).value, before + items)
  {
    if items == [] {
      assert before + items == before;
    } else {
      var front, last := items[..|items| - 1], items[|items| - 1];
      CollectAdds(front, view, before);
      assert Decodes(items) <==> Decodes(front) && last.vpa.Some?;
      assert (before + items)[..|before + items| - 1] == before + front;
    }
  }

  /** A list counts if and only if some replies from the first on are the whole of it, and then it is
      exactly what those replies held. */
  lemma {:induction false} ListedIsWhole(replies: seq<Reply>, view: View, before: seq<Item>)
    requires IsViewOf(view, before)
    ensures forall n :: 0 <= n <= |replies| && IsWhole(replies[..n]) ==>
      ListFrom(replies, view).Listed? && IsViewOf(ListFrom(replies, view).view, before + AllItems(replies[..n]))
    ensures ListFrom(replies, view).Listed? ==> exists n :: 0 <= n <= |replies| && IsWhole(replies[..n])
    decreases |replies|
  {
    if replies != [] && replies[0].Page? {
      var items := replies[0].items;
      CollectAdds(items, view, before);
      if Collect(items, view).Some? && replies[0].token != "" {
        var more := Collect(items, view).value;
        ListedIsWhole(replies[1..], more, before + items);
        forall n | 0 <= n <= |replies| && IsWhole(replies[..n])
          ensures ListFrom(replies, view).Listed?
              && IsViewOf(ListFrom(replies, view).view, before + AllItems(replies[..n]))
        {
          RestIsWhole(replies, n);
          assert before + AllItems(replies[..n]) == (before + items) + AllItems(replies[1..][..n - 1]);
        }
        if ListFrom(replies, view).Listed? {
          var m :| 0 <= m <= |replies[1..]| && IsWhole(replies[1..][..m]);
          RestIsWhole(replies, m + 1);
        }
      } else if Collect(items, view).Some? {
        assert replies[..1] == [replies[0]] && IsWhole(replies[..1]);
        forall n | 0 <= n <= |replies| && IsWhole(replies[..n])
          ensures IsViewOf(ListFrom(replies, view).view, before + AllItems(replies[..n]))
        {
          OnlyOnePage(replies, n);
        }
      } else {
        forall n | 0 <= n <= |replies| ensures !IsWhole(replies[..n]) {
          assert n > 0 ==> replies[..n][0] == replies[0];
        }
      }
    } else if replies != [] {
      forall n | 0 <= n <= |replies| ensures !IsWhole(replies[..n]) {
        assert n > 0 ==> replies[..n][0] == replies[0];
      }
    }
  }

  lemma RestIsWhole(replies: seq<Reply>, n: nat)
    requires 0 < n <= |replies| && replies[0].Page? && Decodes(replies[0].items) && replies[0].token != ""
    ensures IsWhole(replies[..n]) <==> IsWhole(replies[1..][..n - 1])
    ensures AllItems(replies[..n]) == replies[0].items + AllItems(replies[1..][..n - 1])
  {
    var a, b := replies[..n], replies[1..][..n - 1];
    assert a[1..] == b && a[0] == replies[0];
    assert forall i :: 0 <= i < |b| ==> b[i] == a[i + 1];
    if IsWhole(b) {
      forall i | 0 <= i < |a| ensures a[i].Page? && Decodes(a[i].items) && (i < |a| - 1 ==> a[i].token != "") {
        assert i > 0 ==> a[i] == b[i - 1];
      }
    }
  }

  lemma OnlyOnePage(replies: seq<Reply>, n: nat)
    requires 0 < |replies| && n <= |replies| && replies[0].Page? && replies[0].token == "" && IsWhole(replies[..n])
    ensures AllItems(replies[..n]) == replies[0].items
  {
    assert replies[..n][0] == replies[0];
    assert n == 1;
    assert replies[..n][1..] == [];
    assert AllItems(replies[..n]) == replies[0].items + [];
  }

  // ---- Refreshing ----

  datatype ApiState = Unknown | Served | Absent | Forbidden | Failing

  /** One refresh: what the API answered, and whether the poller was being shut down. */
  datatype Round = Round(replies: seq<Reply>, cancelled: bool)

  /** What a round says about the cluster: every VPA there is, none that can be seen, or nothing. */
  function Conclusion(round: Round): Option<View> {
    var listing := ListFrom(round.replies, map[]);
    if round.cancelled then None
    else if listing.Listed? then Some(listing.view)
    else if listing.why == Broken then None
    else Some(map[])
  }

  function StateOf(listing: Listing): ApiState {
    if listing.Listed? then Served
    else match listing.why case NotServed => Absent case NotAllowed => Forbidden case Broken => Failing
  }

  /** The API served these pages and then failed this way before the last. */
  predicate StopsAt(replies: seq<Reply>, n: nat, why: Failure) {
    && n < |replies| && replies[n] == Failed(why)
    && forall i :: 0 <= i < n ==> replies[i].Page? && Decodes(replies[i].items) && replies[i].token != ""
  }

  predicate Stops(replies: seq<Reply>, why: Failure) {
    exists n: nat :: n < |replies| && StopsAt(replies, n, why)
  }

  predicate Ends(replies: seq<Reply>) {
    exists n :: 0 <= n <= |replies| && IsWhole(replies[..n])
  }

  lemma StopsLater(replies: seq<Reply>, why: Failure)
    requires replies != [] && replies[0].Page?
    ensures Stops(replies, why) <==>
      Decodes(replies[0].items) && replies[0].token != "" && Stops(replies[1..], why)
  {
    var rest := replies[1..];
    if n: nat :| n < |replies| && StopsAt(replies, n, why) {
      assert n > 0;
      assert forall i :: 0 <= i < n - 1 ==> rest[i] == replies[i + 1];
      assert StopsAt(rest, n - 1, why);
    }
    if Decodes(replies[0].items) && replies[0].token != "" && Stops(rest, why) {
      var n: nat :| n < |rest| && StopsAt(rest, n, why);
      forall i | 0 <= i < n + 1
        ensures replies[i].Page? && Decodes(replies[i].items) && replies[i].token != ""
      {
        assert i > 0 ==> replies[i] == rest[i - 1];
      }
      assert StopsAt(replies, n + 1, why);
    }
  }

  /** A list ends in an error other than a broken one exactly where the API says that it has no such
      resource, or that it may not be listed, before the whole list has been served. */
  lemma {:induction false} ErroredExactly(replies: seq<Reply>, view: View, before: seq<Item>, why: Failure)
    requires why != Broken && IsViewOf(view, before)
    ensures ListFrom(replies, view) == Errored(why) <==> Stops(replies, why)
    decreases |replies|
  {
    if replies != [] {
      if replies[0].Page? {
        var items := replies[0].items;
        CollectAdds(items, view, before);
        StopsLater(replies, why);
        if Collect(items, view).Some? {
          ErroredExactly(replies[1..], Collect(items, view).value, before + items, why);
        }
      } else {
        assert replies[0] == Failed(why) ==> StopsAt(replies, 0, why);
      }
    }
  }

  /** What a round tells the poller, read off the replies: nothing where it was cut short; all there is
      where the whole list was served; that there is none to see where the API has no such resource or may
      not be listed; and nothing otherwise. */
  lemma ConclusionExactly(round: Round)
    ensures round.cancelled ==> Conclusion(round) == None
    ensures !round.cancelled ==> (Conclusion(round).Some? <==>
      Ends(round.replies) || Stops(round.replies, NotServed) || Stops(round.replies, NotAllowed))
    ensures !round.cancelled ==> forall n :: 0 <= n <= |round.replies| && IsWhole(round.replies[..n]) ==>
      Conclusion(round).Some? && IsViewOf(Conclusion(round).value, AllItems(round.replies[..n]))
    ensures !round.cancelled && (Stops(round.replies, NotServed) || Stops(round.replies, NotAllowed)) ==>
      Conclusion(round) == Some(map[])
  {
    ListedIsWhole(round.replies, map[], []);
    ErroredExactly(round.replies, map[], [], NotServed);
    ErroredExactly(round.replies, map[], [], NotAllowed);
    forall n | 0 <= n <= |round.replies| ensures [] + AllItems(round.replies[..n]) == AllItems(round.replies[..n]) {
    }
  }

  /** ... and the state it is reported in. */
  lemma StateExactly(replies: seq<Reply>)
    ensures var state := StateOf(ListFrom(replies, map[]));
      && (state == Served <==> Ends(replies))
      && (state == Absent <==> Stops(replies, NotServed))
      && (state == Forbidden <==> Stops(replies, NotAllowed))
      && state != Unknown
  {
    ListedIsWhole(replies, map[], []);
    ErroredExactly(replies, map[], [], NotServed);
    ErroredExactly(replies, map[], [], NotAllowed);
  }

  /** The view after a run of rounds. */
  function ViewAfter(rounds: seq<Round>): View {
    if rounds == [] then map[]
    else
      var last := Conclusion(rounds[|rounds| - 1]);
      if last.Some? then last.value else ViewAfter(rounds[..|rounds| - 1])
  }

  /** Whatever failed or was cut short since, the view is the last conclusive list: of all the VPAs there
      were, or of none where the API was absent or forbidden. */
  lemma {:induction false} ViewIsLastConclusion(rounds: seq<Round>)
    ensures || (ViewAfter(rounds) == map[] && forall i :: 0 <= i < |rounds| ==> Conclusion(rounds[i]).None?)
            || exists n :: 0 <= n < |rounds| && Conclusion(rounds[n]) == Some(ViewAfter(rounds))
                           && forall i :: n < i < |rounds| ==> Conclusion(rounds[i]).None?
  {
    if rounds != [] && Conclusion(rounds[|rounds| - 1]).None? {
      var front := rounds[..|rounds| - 1];
      ViewIsLastConclusion(front);
      if n :| 0 <= n < |front| && Conclusion(front[n]) == Some(ViewAfter(front))
              && forall i :: n < i < |front| ==> Conclusion(front[i]).None? {
        assert rounds[n] == front[n];
        assert forall i :: n < i < |front| ==> rounds[i] == front[i];
      } else {
        assert forall i :: 0 <= i < |front| ==> rounds[i] == front[i];
      }
    }
  }

  /** No entry is empty, so a namespace reads as empty exactly when it has none. */
  ghost predicate NoneEmpty(view: View) {
    forall ns :: ns in view ==> view[ns] != []
  }

  lemma ConclusionHasNoneEmpty(round: Round)
    ensures Conclusion(round).Some? ==> NoneEmpty(Conclusion(round).value)
  {
    var listing := ListFrom(round.replies, map[]);
    ListedIsWhole(round.replies, map[], []);
    if listing.Listed? {
      var n :| 0 <= n <= |round.replies| && IsWhole(round.replies[..n]);
    }
  }

  // ---- Events ----

  const CHANGE_BUFFER := 1024

  /** The namespaces that are new, or whose VPAs differ. */
  function Differing(previous: View, current: View): set<Namespace> {
    set ns | ns in current && At(previous, ns) != current[ns]
  }

  function Gone(previous: View, current: View): set<Namespace> {
    set ns | ns in previous && ns !in current
  }

  /** The namespaces `notify` would name. */
  function Changed(previous: View, current: View): set<Namespace> {
    Differing(previous, current) + Gone(previous, current)
  }

  /** Those are the namespaces a consumer would read differently, no more and no fewer. */
  lemma ChangedIsWhatReadsDiffer(previous: View, current: View, ns: Namespace)
    requires NoneEmpty(previous)
    ensures ns in Changed(previous, current) <==> At(previous, ns) != At(current, ns)
  {
  }

  function SetOf(s: seq<Namespace>): set<Namespace> {
    set x | x in s
  }

  ghost predicate NoRepeats(s: seq<Namespace>) {
    forall i, j :: 0 <= i < j < |s| ==> s[i] != s[j]
  }

  function Room(queued: nat): nat {
    if queued < CHANGE_BUFFER then CHANGE_BUFFER - queued else 0
  }

  /** Those of `first` come before all others, and nothing else comes unless all of them have. */
  ghost predicate FirstOfAll(sent: seq<Namespace>, first: set<Namespace>) {
    && (forall i, j :: 0 <= i < j < |sent| && sent[j] in first ==> sent[i] in first)
    && (forall i :: 0 <= i < |sent| && sent[i] !in first ==> first <= SetOf(sent))
  }

  /** What a notification queues: changed namespaces, once each, as many as the buffer has room for,
      those that differ before those that are gone. */
  ghost predicate IsNotice(sent: seq<Namespace>, queued: nat, previous: View, current: View) {
    && SetOf(sent) <= Changed(previous, current) && NoRepeats(sent)
    && |sent| == Least(|Changed(previous, current)|, Room(queued))
    && FirstOfAll(sent, Differing(previous, current))
  }

  function Least(a: nat, b: nat): nat {
    if a < b then a else b
  }

  lemma {:induction false} SizeOfDistinct(s: seq<Namespace>)
    requires NoRepeats(s)
    ensures |SetOf(s)| == |s|
  {
    if s != [] {
      var front, last := s[..|s| - 1], s[|s| - 1];
      SizeOfDistinct(front);
      assert SetOf(s) == SetOf(front) + {last};
      assert last !in front;
    }
  }

  /** A notice names every changed namespace if and only if the buffer had room for them all. */
  lemma NoticeIsComplete(sent: seq<Namespace>, queued: nat, previous: View, current: View)
    requires IsNotice(sent, queued, previous, current) && queued <= CHANGE_BUFFER
    ensures SetOf(sent) == Changed(previous, current) <==> queued + |Changed(previous, current)| <= CHANGE_BUFFER
  {
    SizeOfDistinct(sent);
    if queued + |Changed(previous, current)| <= CHANGE_BUFFER {
      SubsetOfSameSize(SetOf(sent), Changed(previous, current));
    }
  }

  // ---- A consumer that reads again on events ----

  /** The poller's view, its event buffer, and what the consumer last read of each namespace. */
  datatype System = System(view: View, queue: seq<Namespace>, known: View)

  /** The consumer is right about every namespace no event is queued for. */
  ghost predicate Agrees(sys: System) {
    forall ns :: At(sys.known, ns) != At(sys.view, ns) ==> ns in sys.queue
  }

  ghost predicate Refreshes(sys: System, conclusion: Option<View>, sent: seq<Namespace>, after: System) {
    match conclusion
    case None => after == sys
    case Some(view) =>
      && IsNotice(sent, |sys.queue|, sys.view, view)
      && after == System(view, sys.queue + sent, sys.known)
  }

  function Consume(sys: System): System {
    if sys.queue == [] then sys
    else
      var ns := sys.queue[0];
      System(sys.view, sys.queue[1..], sys.known[ns := At(sys.view, ns)])
  }

  lemma ConsumeAgrees(sys: System)
    requires Agrees(sys)
    ensures Agrees(Consume(sys))
  {
    if sys.queue != [] {
      var after := Consume(sys);
      forall ns | At(after.known, ns) != At(after.view, ns) ensures ns in after.queue {
        assert ns != sys.queue[0] && ns in sys.queue;
      }
    }
  }

  /** No queued event names the namespace, and the consumer does not happen to know it as it will be. */
  ghost predicate NeedsEvent(sys: System, view: View, ns: Namespace) {
    ns !in sys.queue && At(sys.known, ns) != At(view, ns)
  }

  /** Before a refresh that finds `view`: the buffer has room for every namespace that differs, or none of
      those needs an event; and it has room for those that are gone as well, or none of those does. */
  ghost predicate KeepsUp(sys: System, view: View) {
    var differing, gone := Differing(sys.view, view), Gone(sys.view, view);
    && (|sys.queue| + |differing| <= CHANGE_BUFFER || forall ns :: ns in differing ==> !NeedsEvent(sys, view, ns))
    && (|sys.queue| + |differing + gone| <= CHANGE_BUFFER || forall ns :: ns in gone ==> !NeedsEvent(sys, view, ns))
  }

  /** With room for all that differ, a notice names all that differ. */
  lemma RoomForDiffering(sent: seq<Namespace>, queued: nat, previous: View, current: View)
    requires IsNotice(sent, queued, previous, current) && queued + |Differing(previous, current)| <= CHANGE_BUFFER
    ensures Differing(previous, current) <= SetOf(sent)
  {
    var differing := Differing(previous, current);
    if forall i :: 0 <= i < |sent| ==> sent[i] in differing {
      SizeOfDistinct(sent);
      SubsetSize(SetOf(sent), differing);
      SubsetSize(differing, Changed(previous, current));
      SubsetOfSameSize(SetOf(sent), differing);
    }
  }

  lemma KeepingUpAgrees(sys: System, view: View, sent: seq<Namespace>, after: System)
    requires Agrees(sys) && NoneEmpty(sys.view) && |sys.queue| <= CHANGE_BUFFER && KeepsUp(sys, view)
    requires Refreshes(sys, Some(view), sent, after)
    ensures Agrees(after)
  {
    forall ns | At(after.known, ns) != At(after.view, ns) ensures ns in after.queue {
      ChangedIsWhatReadsDiffer(sys.view, view, ns);
      if ns !in sys.queue {
        if ns in Differing(sys.view, view) {
          RoomForDiffering(sent, |sys.queue|, sys.view, view);
        } else {
          NoticeIsComplete(sent, |sys.queue|, sys.view, view);
        }
        assert ns in SetOf(sent);
      }
    }
  }

  /** Some of a set, in some order. */
  lemma {:induction false} Pick(s: set<Namespace>, n: nat) returns (q: seq<Namespace>)
    requires n <= |s|
    ensures |q| == n && NoRepeats(q) && SetOf(q) <= s
  {
    q := [];
    if n > 0 {
      var x :| x in s;
      var rest := Pick(s - {x}, n - 1);
      q := rest + [x];
      assert x !in SetOf(rest);
    }
  }

  /** A notice that leaves out a namespace there is no room for in its turn. */
  lemma NoticeWithout(queued: nat, previous: View, current: View, ns: Namespace) returns (sent: seq<Namespace>)
    requires queued <= CHANGE_BUFFER
    requires || (ns in Differing(previous, current) && queued + |Differing(previous, current)| > CHANGE_BUFFER)
             || (ns in Gone(previous, current) && queued + |Changed(previous, current)| > CHANGE_BUFFER)
    ensures IsNotice(sent, queued, previous, current) && ns !in sent
  {
    var differing, gone, room := Differing(previous, current), Gone(previous, current), Room(queued);
    assert differing !! gone;
    SubsetSize(differing, Changed(previous, current));
    if ns in differing || room <= |differing| {
      sent := Pick(differing - {ns}, room);
    } else {
      sent := NoticeWithoutGone(queued, previous, current, ns);
    }
    assert ns in SetOf(sent) <==> ns in sent;
  }

  lemma NoticeWithoutGone(queued: nat, previous: View, current: View, ns: Namespace) returns (sent: seq<Namespace>)
    requires queued <= CHANGE_BUFFER && ns in Gone(previous, current)
    requires |Differing(previous, current)| < Room(queued) < |Changed(previous, current)|
    ensures IsNotice(sent, queued, previous, current) && ns !in sent
  {
    var differing, gone, room := Differing(previous, current), Gone(previous, current), Room(queued);
    assert |Changed(previous, current)| == |differing| + |gone| && |gone - {ns}| == |gone| - 1;
    var first := Pick(differing, |differing|);
    SizeOfDistinct(first);
    SubsetOfSameSize(SetOf(first), differing);
    var second := Pick(gone - {ns}, room - |differing|);
    sent := first + second;
    TwoParts(first, second, differing, gone - {ns});
    assert ns in SetOf(sent) <==> ns in sent;
  }

  lemma TwoParts(first: seq<Namespace>, second: seq<Namespace>, a: set<Namespace>, b: set<Namespace>)
    requires NoRepeats(first) && NoRepeats(second) && SetOf(first) == a && SetOf(second) <= b && a !! b
    ensures NoRepeats(first + second) && SetOf(first + second) <= a + b && FirstOfAll(first + second, a)
  {
    var both := first + second;
    forall i | 0 <= i < |both| ensures both[i] in a <==> i < |first| {
      if i < |first| {
        assert first[i] in SetOf(first);
      } else {
        assert second[i - |first|] in SetOf(second);
      }
    }
    forall i, j | 0 <= i < j < |both| ensures both[i] != both[j] {
      assert j < |first| ==> both[i] == first[i] && both[j] == first[j];
      assert i >= |first| ==> both[i] == second[i - |first|] && both[j] == second[j - |first|];
    }
    forall x | x in a ensures x in SetOf(both) {
      assert x in first;
    }
  }

  lemma FallingBehindLoses(sys: System, view: View) returns (sent: seq<Namespace>, after: System)
    requires Agrees(sys) && |sys.queue| <= CHANGE_BUFFER && !KeepsUp(sys, view)
    ensures Refreshes(sys, Some(view), sent, after) && !Agrees(after)
  {
    var differing := Differing(sys.view, view);
    var ns: Namespace;
    if |sys.queue| + |differing| > CHANGE_BUFFER && exists x :: x in differing && NeedsEvent(sys, view, x) {
      ns :| ns in differing && NeedsEvent(sys, view, ns);
    } else {
      ns :| ns in Gone(sys.view, view) && NeedsEvent(sys, view, ns);
    }
    sent := NoticeWithout(|sys.queue|, sys.view, view, ns);
    after := System(view, sys.queue + sent, sys.known);
    assert ns !in after.queue;
  }

  /** A refresh keeps the consumer in agreement, whatever order the maps yield their namespaces in, if and
      only if the buffer keeps up. */
  lemma RefreshAgrees(sys: System, view: View)
    requires Agrees(sys) && NoneEmpty(sys.view) && |sys.queue| <= CHANGE_BUFFER
    ensures (forall sent, after :: Refreshes(sys, Some(view), sent, after) ==> Agrees(after)) <==> KeepsUp(sys, view)
  {
    if KeepsUp(sys, view) {
      forall sent, after | Refreshes(sys, Some(view), sent, after) ensures Agrees(after) {
        KeepingUpAgrees(sys, view, sent, after);
      }
    } else {
      var sent, after := FallingBehindLoses(sys, view);
    }
  }

  /** A full buffer: the change is lost, and reading every queued event does not bring it back. */
  lemma FullBufferLoses(sys: System, view: View, sent: seq<Namespace>, after: System, ns: Namespace)
    requires NoneEmpty(sys.view) && Refreshes(sys, Some(view), sent, after) && |sys.queue| >= CHANGE_BUFFER
    requires At(sys.known, ns) == At(sys.view, ns) != At(view, ns) && ns !in sys.queue
    ensures At(Drained(after).known, ns) != At(Drained(after).view, ns)
  {
    DrainedReads(after, ns);
  }

  function Drained(sys: System): System
    decreases |sys.queue|
  {
    if sys.queue == [] then sys else Drained(Consume(sys))
  }

  /** Draining reads the namespaces queued, as they are now, and no others. */
  lemma {:induction false} DrainedReads(sys: System, ns: Namespace)
    ensures Drained(sys).view == sys.view && Drained(sys).queue == []
    ensures At(Drained(sys).known, ns) == At(if ns in sys.queue then sys.view else sys.known, ns)
    decreases |sys.queue|
  {
    if sys.queue != [] {
      DrainedReads(Consume(sys), ns);
      assert sys.queue == [sys.queue[0]] + sys.queue[1..];
    }
  }

  // ---- Runs of refreshes and reads ----

  datatype Move = Refresh(round: Round, sent: seq<Namespace>) | Read

  ghost predicate Moves(sys: System, move: Move, after: System) {
    match move
    case Read => after == Consume(sys)
    case Refresh(round, sent) => Refreshes(sys, Conclusion(round), sent, after)
  }

  ghost predicate IsRun(moves: seq<Move>, states: seq<System>) {
    && |states| == |moves| + 1 && states[0] == System(map[], [], map[])
    && forall i {:trigger moves[i]} :: 0 <= i < |moves| ==> Moves(states[i], moves[i], states[i + 1])
  }

  function Rounds(moves: seq<Move>): seq<Round> {
    if moves == [] then []
    else
      var last := moves[|moves| - 1];
      Rounds(moves[..|moves| - 1]) + (if last.Refresh? then [last.round] else [])
  }

  /** What a run is fed: what each refresh is answered, and when the consumer reads. */
  datatype Input = Lists(round: Round) | Reads

  function InputOf(move: Move): Input {
    if move.Refresh? then Lists(move.round) else Reads
  }

  /** Whether the buffer keeps up with what this input changes. */
  ghost predicate KeepsPace(sys: System, input: Input) {
    input.Lists? && Conclusion(input.round).Some? ==> KeepsUp(sys, Conclusion(input.round).value)
  }

  ghost predicate Sane(sys: System) {
    NoneEmpty(sys.view) && |sys.queue| <= CHANGE_BUFFER
  }

  lemma MoveKeeps(sys: System, move: Move, after: System)
    requires Sane(sys) && Moves(sys, move, after)
    ensures Sane(after)
    ensures Agrees(sys) && KeepsPace(sys, InputOf(move)) ==> Agrees(after)
  {
    if move.Refresh? && Conclusion(move.round).Some? {
      ConclusionHasNoneEmpty(move.round);
      if Agrees(sys) && KeepsPace(sys, InputOf(move)) {
        KeepingUpAgrees(sys, Conclusion(move.round).value, move.sent, after);
      }
    } else if Agrees(sys) {
      ConsumeAgrees(sys);
    }
  }

  /** However refreshes and reads interleave, the view is the last conclusive list; and while the buffer
      keeps up, a consumer that has read every queued event knows every namespace as the view has it. */
  lemma {:induction false} RunAgrees(moves: seq<Move>, states: seq<System>)
    requires IsRun(moves, states)
    ensures states[|moves|].view == ViewAfter(Rounds(moves)) && Sane(states[|moves|])
    ensures (forall i :: 0 <= i < |moves| ==> KeepsPace(states[i], InputOf(moves[i]))) ==>
      Agrees(states[|moves|]) && forall ns :: At(Drained(states[|moves|]).known, ns) == At(states[|moves|].view, ns)
  {
    if moves != [] {
      var m := |moves| - 1;
      RunAgrees(moves[..m], states[..m + 1]);
      MoveKeeps(states[m], moves[m], states[m + 1]);
      RoundsNext(moves);
    }
    if Agrees(states[|moves|]) {
      forall ns ensures At(Drained(states[|moves|]).known, ns) == At(states[|moves|].view, ns) {
        DrainedReads(states[|moves|], ns);
      }
    }
  }

  /** The run has been fed the first of these inputs. */
  ghost predicate Follows(moves: seq<Move>, inputs: seq<Input>) {
    |moves| <= |inputs| && forall i :: 0 <= i < |moves| ==> InputOf(moves[i]) == inputs[i]
  }

  ghost predicate AlwaysAgrees(inputs: seq<Input>) {
    forall moves, states :: IsRun(moves, states) && Follows(moves, inputs) ==> Agrees(states[|moves|])
  }

  ghost predicate AlwaysKeepsPace(inputs: seq<Input>) {
    forall moves, states :: IsRun(moves, states) && Follows(moves, inputs) && |moves| < |inputs| ==>
      KeepsPace(states[|moves|], inputs[|moves|])
  }

  lemma RunStops(moves: seq<Move>, states: seq<System>, inputs: seq<Input>, n: nat)
    requires IsRun(moves, states) && Follows(moves, inputs) && n <= |moves|
    ensures IsRun(moves[..n], states[..n + 1]) && Follows(moves[..n], inputs)
  {
    forall i | 0 <= i < n ensures Moves(states[..n + 1][i], moves[..n][i], states[..n + 1][i + 1]) {
      assert moves[..n][i] == moves[i];
    }
  }

  lemma PaceOnRun(inputs: seq<Input>, moves: seq<Move>, states: seq<System>, n: nat)
    requires AlwaysKeepsPace(inputs) && IsRun(moves, states) && Follows(moves, inputs) && n < |moves|
    ensures KeepsPace(states[n], InputOf(moves[n]))
  {
    RunStops(moves, states, inputs, n);
    assert states[..n + 1][n] == states[n] && inputs[n] == InputOf(moves[n]);
  }

  lemma RunGoesOn(moves: seq<Move>, states: seq<System>, move: Move, after: System)
    requires IsRun(moves, states) && Moves(states[|moves|], move, after)
    ensures IsRun(moves + [move], states + [after])
  {
    var more, onward := moves + [move], states + [after];
    forall i | 0 <= i < |more| ensures Moves(onward[i], more[i], onward[i + 1]) {
      if i < |moves| {
        assert more[i] == moves[i];
      }
    }
  }

  lemma RunIsSane(moves: seq<Move>, states: seq<System>)
    requires IsRun(moves, states)
    ensures Sane(states[|moves|])
  {
    RunAgrees(moves, states);
  }

  lemma FollowsOn(moves: seq<Move>, move: Move, inputs: seq<Input>)
    requires Follows(moves, inputs) && |moves| < |inputs| && InputOf(move) == inputs[|moves|]
    ensures Follows(moves + [move], inputs)
  {
  }

  lemma LosingIsARun(inputs: seq<Input>, moves: seq<Move>, states: seq<System>)
    returns (more: seq<Move>, onward: seq<System>)
    requires IsRun(moves, states) && Follows(moves, inputs) && |moves| < |inputs|
    requires Agrees(states[|moves|]) && !KeepsPace(states[|moves|], inputs[|moves|])
    ensures IsRun(more, onward) && Follows(more, inputs) && !Agrees(onward[|more|])
  {
    var round := inputs[|moves|].round;
    RunIsSane(moves, states);
    var sent, after := FallingBehindLoses(states[|moves|], Conclusion(round).value);
    var move := Refresh(round, sent);
    assert Moves(states[|moves|], move, after);
    more, onward := moves + [move], states + [after];
    RunGoesOn(moves, states, move, after);
    FollowsOn(moves, move, inputs);
  }

  /** Over whole runs: fed these inputs, the consumer is in agreement after every step of every run, if
      and only if the buffer keeps up before every one. */
  lemma AgreementIsKeepingPace(inputs: seq<Input>)
    ensures AlwaysAgrees(inputs) <==> AlwaysKeepsPace(inputs)
  {
    if AlwaysKeepsPace(inputs) {
      forall moves, states | IsRun(moves, states) && Follows(moves, inputs) ensures Agrees(states[|moves|]) {
        forall n | 0 <= n < |moves| ensures KeepsPace(states[n], InputOf(moves[n])) {
          PaceOnRun(inputs, moves, states, n);
        }
        RunAgrees(moves, states);
      }
    } else {
      var moves, states :| IsRun(moves, states) && Follows(moves, inputs) && |moves| < |inputs|
                           && !KeepsPace(states[|moves|], inputs[|moves|]);
      if Agrees(states[|moves|]) {
        var more, onward := LosingIsARun(inputs, moves, states);
      }
    }
  }

  lemma RoundsNext(moves: seq<Move>)
    requires moves != []
    ensures var m := |moves| - 1;
      ViewAfter(Rounds(moves)) ==
        if moves[m].Refresh? && Conclusion(moves[m].round).Some? then Conclusion(moves[m].round).value
        else ViewAfter(Rounds(moves[..m]))
  {
    var last := moves[|moves| - 1];
    if last.Refresh? {
      ViewNext(Rounds(moves[..|moves| - 1]), last.round);
    } else {
      assert Rounds(moves) == Rounds(moves[..|moves| - 1]);
    }
  }

  lemma ViewNext(rounds: seq<Round>, round: Round)
    ensures ViewAfter(rounds + [round]) ==
      if Conclusion(round).Some? then Conclusion(round).value else ViewAfter(rounds)
  {
    assert (rounds + [round])[..|rounds|] == rounds;
  }

  function Concluded(listing: Listing): Option<View> {
    if listing.Listed? then Some(listing.view) else if listing.why == Broken then None else Some(map[])
  }

  lemma ConclusionOfListing(round: Round)
    ensures Conclusion(round) == if round.cancelled then None else Concluded(ListFrom(round.replies, map[]))
  {
  }

  class Poller {
    var byNS: View
    var synced: bool
    var state: ApiState
    var changes: seq<Namespace>

    constructor ()
      ensures byNS == map[] && !synced && state == Unknown && changes == []
    {
      byNS, synced, state, changes := map[], false, Unknown, [];
    }

    /** One page into the map; the map is of no use where an object does not decode. */
    static method Parse(items: seq<Item>, view: View) returns (more: Option<View>)
      ensures more == Collect(items, view)
    {
      var byNS := view;
      for i := 0 to |items|
        invariant Collect(items[..i], view) == Some(byNS)
      {
        assert items[..i + 1][..i] == items[..i];
        if items[i].vpa.None? {
          UndecodedEndsCollect(items, i, view);
          return None;
        }
        byNS := byNS[items[i].ns := At(byNS, items[i].ns) + [items[i].vpa.value]];
      }
      assert items[..|items|] == items;
      return Some(byNS);
    }

    static method List(replies: seq<Reply>) returns (listing: Listing)
      ensures listing == ListFrom(replies, map[])
    {
      var view: View := map[];
      for i := 0 to |replies|
        invariant ListFrom(replies[i..], view) == ListFrom(replies, map[])
      {
        assert replies[i..][0] == replies[i] && replies[i..][1..] == replies[i + 1..];
        match replies[i]
        case Failed(why) => return Errored(why);
        case Page(items, token) =>
          var more := Parse(items, view);
          if more.None? {
            return Errored(Broken);
          }
          view := more.value;
          if token == "" {
            return Listed(view);
          }
      }
      return Errored(Broken);
    }

    /** One more namespace, dropped where the buffer is full. */
    method Send(ns: Namespace, ghost before: seq<Namespace>, ghost sent: seq<Namespace>, ghost offered: set<Namespace>)
      returns (ghost more: seq<Namespace>)
      requires changes == before + sent && Offered(sent, |before|, offered) && ns !in offered
      modifies this`changes
      ensures changes == if |old(changes)| < CHANGE_BUFFER then old(changes) + [ns] else old(changes)
      ensures changes == before + more && Offered(more, |before|, offered + {ns})
      ensures more == if |before| + |sent| < CHANGE_BUFFER then sent + [ns] else sent
    {
      OfferOne(sent, |before|, offered, ns);
      more := if |changes| < CHANGE_BUFFER then sent + [ns] else sent;
      if |changes| < CHANGE_BUFFER {
        changes := changes + [ns];
      }
    }

    method SendDiffering(previous: View, current: View)
      returns (ghost sent: seq<Namespace>, ghost offered: set<Namespace>)
      modifies this`changes
      ensures changes == old(changes) + sent && Offered(sent, |old(changes)|, offered)
      ensures forall x :: x in offered <==> x in current && At(previous, x) != current[x]
    {
      sent, offered := [], {};
      var rest := current.Keys;
      ghost var before := changes;
      while rest != {}
        invariant rest <= current.Keys && changes == before + sent && Offered(sent, |before|, offered)
        invariant forall x :: x in offered <==> x in current && x !in rest && At(previous, x) != current[x]
        decreases |rest|
      {
        var ns :| ns in rest;
        if At(previous, ns) != current[ns] {
          sent := Send(ns, before, sent, offered);
          offered := offered + {ns};
        }
        rest := rest - {ns};
      }
    }

    method SendGone(previous: View, current: View, ghost before: seq<Namespace>, ghost already: seq<Namespace>,
                    ghost base: set<Namespace>)
      returns (ghost sent: seq<Namespace>, ghost offered: set<Namespace>)
      requires changes == before + already && Offered(already, |before|, base)
      requires forall x :: x in base ==> x in current
      modifies this`changes
      ensures changes == before + sent && Offered(sent, |before|, offered)
      ensures forall x :: x in offered <==> x in base || (x in previous && x !in current)
      ensures already <= sent && (forall i :: |already| <= i < |sent| ==> sent[i] !in current)
      ensures |sent| > |already| ==> |before| + |already| < CHANGE_BUFFER
    {
      sent, offered := already, base;
      var rest := previous.Keys;
      while rest != {}
        invariant rest <= previous.Keys && changes == before + sent && Offered(sent, |before|, offered)
        invariant forall x :: x in offered <==> x in base || (x in previous && x !in rest && x !in current)
        invariant already <= sent && (forall i :: |already| <= i < |sent| ==> sent[i] !in current)
        invariant |sent| > |already| ==> |before| + |already| < CHANGE_BUFFER
        decreases |rest|
      {
        var ns :| ns in rest;
        if ns !in current {
          sent := Send(ns, before, sent, offered);
          offered := offered + {ns};
        }
        rest := rest - {ns};
      }
    }

    /** First the namespaces that are new or different, then those that are gone. */
    method Notify(previous: View, current: View) returns (ghost sent: seq<Namespace>)
      modifies this`changes
      ensures changes == old(changes) + sent && IsNotice(sent, |old(changes)|, previous, current)
    {
      ghost var before := changes;
      ghost var differing;
      sent, differing := SendDiffering(previous, current);
      ghost var first, offered := sent, differing;
      sent, offered := SendGone(previous, current, before, sent, differing);
      NoticeInParts(first, sent, |before|, previous, current, differing, offered);
    }

    /** What a finished list does to the view, the state and the events. */
    method Take(listing: Listing) returns (ghost sent: seq<Namespace>)
      modifies this
      ensures byNS == if Concluded(listing).Some? then Concluded(listing).value else old(byNS)
      ensures synced && state == StateOf(listing) && changes == old(changes) + sent
      ensures if Concluded(listing).Some? then IsNotice(sent, |old(changes)|, old(byNS), byNS) else sent == []
    {
      sent := [];
      var next := StateOf(listing);
      var previous := byNS;
      if next != Failing {
        byNS := if listing.Listed? then listing.view else map[];
      }
      synced, state := true, next;
      if next != Failing {
        sent := Notify(previous, byNS);
      }
    }

    method Refresh(round: Round) returns (ghost sent: seq<Namespace>)
      modifies this
      ensures byNS == if Conclusion(round).Some? then Conclusion(round).value else old(byNS)
      ensures if round.cancelled then synced == old(synced) && state == old(state)
              else synced && state == StateOf(ListFrom(round.replies, map[]))
      ensures changes == old(changes) + sent
      ensures if Conclusion(round).Some? then IsNotice(sent, |old(changes)|, old(byNS), byNS) else sent == []
    {
      ConclusionOfListing(round);
      var listing := List(round.replies);
      if round.cancelled {
        return [];
      }
      sent := Take(listing);
    }
  }

  lemma {:induction false} UndecodedEndsCollect(items: seq<Item>, i: nat, view: View)
    requires i < |items| && items[i].vpa.None?
    ensures Collect(items, view) == None
  {
    if i < |items| - 1 {
      UndecodedEndsCollect(items[..|items| - 1], i, view);
    }
  }

  /** The namespaces offered to the buffer so far, those that found room in order. */
  ghost predicate Offered(sent: seq<Namespace>, queued: nat, offered: set<Namespace>) {
    && SetOf(sent) <= offered && NoRepeats(sent)
    && |sent| == Least(|offered|, Room(queued))
  }

  /** Everything that differs is offered before anything that is gone. */
  lemma NoticeInParts(first: seq<Namespace>, sent: seq<Namespace>, queued: nat, previous: View, current: View,
                      differing: set<Namespace>, offered: set<Namespace>)
    requires Offered(first, queued, differing) && Offered(sent, queued, offered)
    requires forall x :: x in differing <==> x in current && At(previous, x) != current[x]
    requires forall x :: x in offered <==> x in differing || (x in previous && x !in current)
    requires first <= sent && (forall i :: |first| <= i < |sent| ==> sent[i] !in current)
    requires |sent| > |first| ==> queued + |first| < CHANGE_BUFFER
    ensures IsNotice(sent, queued, previous, current)
  {
    assert differing == Differing(previous, current) && offered == Changed(previous, current);
    forall i | 0 <= i < |sent| ensures sent[i] in differing <==> i < |first| {
      if i < |first| {
        assert sent[i] == first[i] && first[i] in SetOf(first);
      }
    }
    if |sent| > |first| {
      SizeOfDistinct(first);
      SubsetOfSameSize(SetOf(first), differing);
      assert forall x :: x in first ==> x in sent;
    }
  }

  lemma OfferOne(sent: seq<Namespace>, queued: nat, offered: set<Namespace>, ns: Namespace)
    requires Offered(sent, queued, offered) && ns !in offered
    ensures Offered(if queued + |sent| < CHANGE_BUFFER then sent + [ns] else sent, queued, offered + {ns})
  {
    assert ns in SetOf(sent) <==> ns in sent;
  }
}
