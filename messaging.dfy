/** messaging.py: a `MessageDispatcher` that stamps each broadcast message
    with the next uid and hands it to every registered bacterium except its
    sender, in registration order. Bacteria are compared by identity (`is`),
    so any object can be registered. `bacterium.receive` is defined by no
    class of the repository; the model returns the sequence of bacteria the
    message is handed to instead of calling it. */
module Messaging {
  import opened Wrappers
  import ListOps

  class Message {
    const sender: object
    /** Set by the dispatcher when it broadcasts the message; a message that
        was never broadcast has no `uid` attribute. */
    var uid: Option<nat>

    constructor(sender: object)
      ensures this.sender == sender && uid == None
    {
      this.sender := sender;
      uid := None;
    }
  }

  /** The bacteria of `registry` that a broadcast from `sender` reaches, in
      registration order: every entry but the sender, each as often as it
      is registered. */
  function Recipients<T(==)>(registry: seq<T>, sender: T): (r: seq<T>)
    ensures sender !in r
    ensures |r| == |registry| - multiset(registry)[sender]
    decreases |registry|
  {
    if registry == [] then []
    else
      var rest := Recipients(registry[1..], sender);
      assert registry == [registry[0]] + registry[1..];
      if registry[0] == sender then rest else [registry[0]] + rest
  }

  /** Every registered bacterium other than the sender is reached, as often
      as it is registered: one registered twice receives the message twice. */
  lemma {:induction false} RecipientsCount<T>(registry: seq<T>, sender: T, x: T)
    requires x != sender
    ensures multiset(Recipients(registry, sender))[x] == multiset(registry)[x]
    ensures x in Recipients(registry, sender) <==> x in registry
    decreases |registry|
  {
    if registry != [] {
      RecipientsCount(registry[1..], sender, x);
      assert registry == [registry[0]] + registry[1..];
    }
  }

  /** Delivery keeps registration order: a registry split in two is served
      first part first. */
  lemma {:induction false} RecipientsAppend<T>(a: seq<T>, b: seq<T>, sender: T)
    ensures Recipients(a + b, sender) == Recipients(a, sender) + Recipients(b, sender)
    decreases |a|
  {
    if a == [] {
      assert a + b == b;
    } else {
      assert (a + b)[1..] == a[1..] + b;
      RecipientsAppend(a[1..], b, sender);
    }
  }

  /** Serving one more entry of the registry extends the recipients by that
      entry, unless it is the sender. */
  lemma RecipientsExtend<T>(registry: seq<T>, i: nat, sender: T)
    requires i < |registry|
    ensures Recipients(registry[..i + 1], sender) ==
              Recipients(registry[..i], sender) + (if registry[i] == sender then [] else [registry[i]])
  {
    assert registry[..i + 1] == registry[..i] + [registry[i]];
    RecipientsAppend(registry[..i], [registry[i]], sender);
    assert [registry[i]][1..] == [];
  }

  /** A registry without the sender is served in full and in order. */
  lemma {:induction false} RecipientsWithoutSender<T>(registry: seq<T>, sender: T)
    requires sender !in registry
    ensures Recipients(registry, sender) == registry
    decreases |registry|
  {
    if registry != [] {
      RecipientsWithoutSender(registry[1..], sender);
    }
  }

  /** Registered as `[a, b, c, b]`, a message from `a` reaches `b`, `c`
      and `b` again: registering twice means receiving twice. */
  lemma RegisteredTwiceReceivesTwice<T>(a: T, b: T, c: T)
    requires a != b && a != c
    ensures Recipients([a, b, c, b], a) == [b, c, b]
  {
    assert [a, b, c, b][1..] == [b, c, b];
    RecipientsWithoutSender([b, c, b], a);
  }

  /** Entry `i` is uid `i + 1`: what the dispatcher has issued so far. */
  ghost predicate CountsUpFromOne(s: seq<nat>) {
    forall i :: 0 <= i < |s| ==> s[i] == i + 1
  }

  /** Uids counted up from one are strictly increasing, so none repeats. */
  lemma IssuedUidsIncrease(s: seq<nat>)
    requires CountsUpFromOne(s)
    ensures forall i, j :: 0 <= i < j < |s| ==> s[i] < s[j]
    ensures forall i, j :: 0 <= i < |s| && 0 <= j < |s| && s[i] == s[j] ==> i == j
  {
  }

  class MessageDispatcher {
    var bacteria: seq<object>
    /** The uid the next broadcast gets. */
    var messageUid: nat
    /** The uids handed out so far, in order. */
    ghost var issued: seq<nat>

    ghost predicate Valid()
      reads this
    {
      messageUid == |issued| + 1 && CountsUpFromOne(issued)
    }

    /** No bacteria, and the first broadcast gets uid 1. */
    constructor()
      ensures Valid()
      ensures bacteria == [] && messageUid == 1 && issued == []
    {
      bacteria := [];
      messageUid := 1;
      issued := [];
    }

    /** Stamps `message` with the next uid, then hands it to each registered
        bacterium that is not its sender, in registration order; the
        registry is left as it was. */
    method Broadcast(message: Message) returns (delivered: seq<object>)
      requires Valid()
      modifies this`messageUid, this`issued, message`uid
      ensures Valid()
      ensures message.uid == Some(old(messageUid))
      ensures messageUid == old(messageUid) + 1
      ensures issued == old(issued) + [old(messageUid)]
      ensures bacteria == old(bacteria)
      ensures delivered == Recipients(bacteria, message.sender)
    {
      message.uid := Some(messageUid);
      issued := issued + [messageUid];
      messageUid := messageUid + 1;
      assert CountsUpFromOne(issued);
      delivered := [];
      for i := 0 to |bacteria|
        modifies {}
        invariant delivered == Recipients(bacteria[..i], message.sender)
      {
        RecipientsExtend(bacteria, i, message.sender);
        if bacteria[i] != message.sender {
          delivered := delivered + [bacteria[i]];
        }
      }
      assert bacteria[..|bacteria|] == bacteria;
    }

    /** Appends, with no check for a bacterium already registered. */
    method Register(bacterium: object)
      modifies this`bacteria
      ensures bacteria == old(bacteria) + [bacterium]
    {
      bacteria := bacteria + [bacterium];
    }

    /** Removes the first registration of `bacterium`; `list.remove` fails
        on a bacterium that is not registered, hence the precondition. */
    method Unregister(bacterium: object)
      requires bacterium in bacteria
      modifies this`bacteria
      ensures bacteria == ListOps.RemoveFirst(old(bacteria), bacterium)
      ensures multiset(bacteria) == multiset(old(bacteria)) - multiset{bacterium}
    {
      bacteria := ListOps.RemoveFirst(bacteria, bacterium);
    }
  }
}
