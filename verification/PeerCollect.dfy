/** How a peer of core/bitcoin/BRPeer.c holds a merkleblock back until the transactions it proves have
    arrived.  A ghost history of what was heard and relayed carries the claim over whole message runs. */
module PeerCollect {
  import opened Blocks

  const MAX_GETDATA_HASHES: nat := 50_000

  /** A message as the handlers see it: contents are None when they do not parse, and valid is the
      verdict on a merkleblock's proof of work and Merkle root.  Of an inv, complete says that its length
      fits its count, others counts the items that are not transactions, expected is the verdict on the
      number of blocks, and wantsBlocks says that some are to be requested.  For any other message the
      verdict of its handler is given. */
  datatype Message =
    | TxMessage(txHash: Option<Hash>)
    | MerkleblockMessage(block: Option<Block>, valid: bool)
    | InvMessage(complete: bool, txHashes: seq<Hash>, others: nat, expected: bool, wantsBlocks: bool)
    | OtherMessage(accepted: bool)

  /** What an inv handler refuses; a peer never notes that it sent getblocks. */
  predicate InvRefused(msg: Message, sentFilter: bool, sentMempool: bool)
    requires msg.InvMessage?
  {
    || !msg.complete
    || (|msg.txHashes| + msg.others <= MAX_GETDATA_HASHES
        && ((msg.txHashes != [] && !sentFilter && !sentMempool) || |msg.txHashes| > 10_000 || !msg.expected))
  }

  /** An inv that is neither refused nor dropped for its length. */
  predicate InvTaken(msg: Message, sentFilter: bool, sentMempool: bool)
    requires msg.InvMessage?
  {
    !InvRefused(msg, sentFilter, sentMempool) && |msg.txHashes| + msg.others <= MAX_GETDATA_HASHES
  }

  /** Merkleblock records the transactions known at that moment; Refused is a tx message or
      merkleblock without effect, NonTx any other message. */
  datatype Event =
    | Merkleblock(block: Block, known: set<Hash>)
    | GotTx(txHash: Hash)
    | Refused
    | NonTx
    | Relayed(block: Block)

  /** The transactions that arrived from an event on. */
  function Arrivals(history: seq<Event>, from: nat): multiset<Hash> {
    if |history| <= from then multiset{} else
    var last := history[|history| - 1];
    Arrivals(history[..|history| - 1], from) + if last.GotTx? then multiset{last.txHash} else multiset{}
  }

  lemma ArrivalsGrow(history: seq<Event>, from: nat, e: Event)
    requires from <= |history|
    ensures Arrivals(history + [e], from) == Arrivals(history, from) + if e.GotTx? then multiset{e.txHash} else multiset{}
  {
    assert (history + [e])[..|history|] == history;
  }

  /** The hashes not yet known, last one first. */
  function Unknown(hashes: seq<Hash>, known: set<Hash>): seq<Hash> {
    if hashes == [] then [] else
    var last := hashes[|hashes| - 1];
    (if last in known then [] else [last]) + Unknown(hashes[..|hashes| - 1], known)
  }

  lemma NoneLeft(hashes: seq<Hash>)
    ensures hashes == [] <==> multiset(hashes) == multiset{}
  {
    if hashes != [] { assert hashes[0] in multiset(hashes); }
  }

  lemma UnknownNone(hashes: seq<Hash>, known: set<Hash>)
    ensures hashes[..0] == [] && Unknown(hashes[..0], known) == []
  {}

  lemma UnknownStep(a: seq<Hash>, hashes: seq<Hash>, known: set<Hash>, i: nat)
    requires 0 < i <= |hashes|
    ensures a + Unknown(hashes[..i], known)
            == (if hashes[i - 1] in known then a else a + [hashes[i - 1]]) + Unknown(hashes[..i - 1], known)
  {
    assert hashes[..i][..i - 1] == hashes[..i - 1];
  }

  lemma {:induction false} UnknownElements(hashes: seq<Hash>, known: set<Hash>, h: Hash)
    requires h in hashes
    ensures h in known || h in Unknown(hashes, known)
  {
    if h != hashes[|hashes| - 1] { UnknownElements(hashes[..|hashes| - 1], known, h); }
  }

  /** From event m on, nothing but transactions was heard. */
  ghost predicate Collecting(history: seq<Event>, m: nat, block: Block) {
    && m < |history| && history[m].Merkleblock? && history[m].block == block
    && forall j :: m < j < |history| ==> history[j].GotTx? || history[j].Refused?
  }

  /** What has not arrived yet of the block announced by event m. */
  ghost function Missing(history: seq<Event>, m: nat): multiset<Hash>
    requires m < |history| && history[m].Merkleblock?
  {
    multiset(Unknown(history[m].block.txHashes, history[m].known)) - Arrivals(history, m + 1)
  }

  /** A block was relayed directly after its announcement and transactions that complete it, and not
      before they did. */
  ghost predicate Released(history: seq<Event>, i: nat)
    requires i < |history| && history[i].Relayed?
  {
    exists m :: 0 <= m < i && Collecting(history[..i], m, history[i].block) && Missing(history[..i], m) == multiset{}
  }

  ghost predicate Gated(history: seq<Event>) {
    forall i :: 0 <= i < |history| && history[i].Relayed? ==> Released(history, i)
  }

  lemma GatedMore(history: seq<Event>, e: Event)
    requires Gated(history)
    requires e.Relayed? ==> exists m :: 0 <= m < |history| && Collecting(history, m, e.block) && Missing(history, m) == multiset{}
    ensures Gated(history + [e])
  {
    var next := history + [e];
    forall i | 0 <= i < |next| && next[i].Relayed? ensures Released(next, i) {
      if i < |history| {
        assert next[..i] == history[..i];
        assert Released(history, i);
      } else {
        assert next[..i] == history;
      }
    }
  }

  lemma GatedRelay(history: seq<Event>, block: Block, m: nat)
    requires Gated(history) && m < |history| && Collecting(history, m, block) && Missing(history, m) == multiset{}
    ensures Gated(history + [Relayed(block)])
  {
    hide Missing, Arrivals, Unknown;
    GatedMore(history, Relayed(block));
  }

  /** A block announced by the latest announcement and not relayed is still being collected. */
  ghost predicate Prompt(history: seq<Event>, currentBlock: Option<Block>, since: nat) {
    forall m :: 0 <= m < |history| && history[m].Merkleblock? && Collecting(history, m, history[m].block) ==>
      currentBlock == Some(history[m].block) && since == m
  }

  lemma CollectingMore(history: seq<Event>, m: nat, block: Block, e: Event)
    requires m < |history|
    ensures Collecting(history + [e], m, block) <==> Collecting(history, m, block) && (e.GotTx? || e.Refused?)
  {
    var next := history + [e];
    assert next[|history|] == e && forall j :: 0 <= j < |history| ==> next[j] == history[j];
  }

  lemma MissingMore(history: seq<Event>, m: nat, e: Event)
    requires m < |history| && history[m].Merkleblock?
    ensures Missing(history + [e], m) == Missing(history, m) - if e.GotTx? then multiset{e.txHash} else multiset{}
  {
    hide Unknown, Arrivals;
    ArrivalsGrow(history, m + 1, e);
  }

  /** An event that ends any collecting. */
  lemma PromptEnds(history: seq<Event>, e: Event, since: nat)
    requires e.Relayed? || e.NonTx?
    ensures Prompt(history + [e], None, since)
  {
    forall m | 0 <= m < |history| && history[m].Merkleblock?
      ensures !Collecting(history + [e], m, history[m].block)
    {
      CollectingMore(history, m, history[m].block, e);
    }
  }

  lemma PromptMore(history: seq<Event>, e: Event, currentBlock: Option<Block>, since: nat)
    requires Prompt(history, currentBlock, since) && (e.GotTx? || e.Refused?)
    ensures Prompt(history + [e], currentBlock, since)
  {
    forall m | 0 <= m < |history| && history[m].Merkleblock? && Collecting(history + [e], m, history[m].block)
      ensures currentBlock == Some(history[m].block) && since == m
    {
      CollectingMore(history, m, history[m].block, e);
    }
  }

  lemma Announced(history: seq<Event>, block: Block, known: set<Hash>)
    requires Gated(history)
    ensures var next := history + [Merkleblock(block, known)];
            && Gated(next) && Collecting(next, |history|, block)
            && Missing(next, |history|) == multiset(Unknown(block.txHashes, known))
            && Prompt(next, Some(block), |history|)
  {
    hide Unknown;
    var e := Merkleblock(block, known);
    GatedMore(history, e);
    forall m | 0 <= m < |history| && history[m].Merkleblock?
      ensures !Collecting(history + [e], m, history[m].block)
    {
      CollectingMore(history, m, history[m].block, e);
    }
  }

  /** Every transaction a relayed block proves was known when its merkleblock came, or has arrived as a
      tx message since. */
  lemma RelayedTxsSeen(history: seq<Event>, i: nat, h: Hash) returns (m: nat)
    requires Gated(history) && i < |history| && history[i].Relayed? && h in history[i].block.txHashes
    ensures m < i && history[m].Merkleblock? && history[m].block == history[i].block
    ensures h in history[m].known || exists j :: m < j < i && history[j] == GotTx(h)
  {
    hide Arrivals, Unknown;
    assert Released(history, i);
    m :| 0 <= m < i && Collecting(history[..i], m, history[i].block) && Missing(history[..i], m) == multiset{};
    var before := history[..i];
    UnknownElements(before[m].block.txHashes, before[m].known, h);
    if h !in history[m].known {
      var wanted := multiset(Unknown(before[m].block.txHashes, before[m].known));
      assert wanted[h] > 0;
      assert Missing(before, m)[h] == 0;
      assert h in Arrivals(before, m + 1);
      var j := ArrivedAt(before, m + 1, h);
      assert history[j] == GotTx(h);
    }
  }

  lemma {:induction false} ArrivedAt(history: seq<Event>, from: nat, h: Hash) returns (j: nat)
    requires h in Arrivals(history, from)
    ensures from <= j < |history| && history[j] == GotTx(h)
  {
    var n := |history| - 1;
    if history[n] == GotTx(h) {
      j := n;
    } else {
      j := ArrivedAt(history[..n], from, h);
    }
  }

  lemma ElementsNone()
    ensures Elements<Hash>([]) == {}
  {}

  lemma ElementsSnoc(s: seq<Hash>, x: Hash)
    ensures Elements(s + [x]) == Elements(s) + {x}
  {}

  class Peer {
    var currentBlock: Option<Block>
    var currentBlockTxHashes: seq<Hash>
    var knownTxHashes: seq<Hash>
    var knownTxHashSet: set<Hash>
    var sentFilter: bool
    var sentGetdata: bool
    var sentMempool: bool
    var awaitsMempool: bool
    const relaysBlocks: bool
    ghost var history: seq<Event>
    ghost var since: nat

    /** A block is being collected exactly while hashes are missing, the missing hashes are exactly what
        has not arrived, and every block relayed so far was complete. */
    ghost predicate Valid()
      reads this
    {
      && (currentBlock.Some? <==> currentBlockTxHashes != [])
      && (currentBlock.Some? ==> Collecting(history, since, currentBlock.value)
                                 && multiset(currentBlockTxHashes) == Missing(history, since))
      && Gated(history) && (relaysBlocks ==> Prompt(history, currentBlock, since))
      && knownTxHashSet == Elements(knownTxHashes)
    }

    constructor (relaysBlocks: bool)
      ensures Valid() && currentBlock == None && history == [] && this.relaysBlocks == relaysBlocks
    {
      currentBlock, currentBlockTxHashes := None, [];
      knownTxHashes, knownTxHashSet := [], {};
      sentFilter, sentGetdata, sentMempool, awaitsMempool := false, false, false, false;
      this.relaysBlocks := relaysBlocks;
      history, since := [], 0;
    }

    /** Fills the set again after the array it points into has moved. */
    method Rebuild()
      modifies this`knownTxHashSet
      ensures knownTxHashSet == Elements(knownTxHashes)
    {
      knownTxHashSet := {};
      var j := |knownTxHashes|;
      while j > 0
        invariant 0 <= j <= |knownTxHashes| && knownTxHashSet == Elements(knownTxHashes[j..])
      {
        j := j - 1;
        knownTxHashSet := knownTxHashSet + {knownTxHashes[j]};
        assert knownTxHashes[j..] == [knownTxHashes[j]] + knownTxHashes[j + 1..];
      }
      assert knownTxHashes[0..] == knownTxHashes;
    }

    /** Adds hashes to the known ones; whether an addition moves the array does not matter. */
    method AddKnownTxHashes(txHashes: seq<Hash>)
      requires Valid()
      modifies this`knownTxHashes, this`knownTxHashSet
      ensures Valid() && Elements(knownTxHashes) == old(Elements(knownTxHashes)) + Elements(txHashes)
    {
      hide Collecting, Missing, Gated, Prompt, Elements;
      ElementsNone();
      assert txHashes[..0] == [];
      var i := 0;
      while i < |txHashes|
        invariant i <= |txHashes| && Valid()
        invariant Elements(knownTxHashes) == old(Elements(knownTxHashes)) + Elements(txHashes[..i])
      {
        ElementsSnoc(txHashes[..i], txHashes[i]);
        ElementsSnoc(knownTxHashes, txHashes[i]);
        assert txHashes[..i + 1] == txHashes[..i] + [txHashes[i]];
        if txHashes[i] !in knownTxHashSet {
          knownTxHashes := knownTxHashes + [txHashes[i]];
          if * {
            Rebuild();
          } else {
            knownTxHashSet := knownTxHashSet + {knownTxHashes[|knownTxHashes| - 1]};
          }
        }
        i := i + 1;
      }
      assert txHashes[..i] == txHashes;
    }

    /** Takes one occurrence of a hash off the missing ones, the last one if there are several. */
    method TakeOff(txHash: Hash)
      modifies this`currentBlockTxHashes
      ensures multiset(currentBlockTxHashes) == multiset(old(currentBlockTxHashes)) - multiset{txHash}
    {
      var i := |currentBlockTxHashes|;
      while i > 0
        invariant 0 <= i <= |currentBlockTxHashes| && currentBlockTxHashes == old(currentBlockTxHashes)
        invariant forall k :: i <= k < |currentBlockTxHashes| ==> currentBlockTxHashes[k] != txHash
      {
        if currentBlockTxHashes[i - 1] == txHash {
          ghost var was := currentBlockTxHashes;
          assert was == was[..i - 1] + [was[i - 1]] + was[i..];
          currentBlockTxHashes := currentBlockTxHashes[..i - 1] + currentBlockTxHashes[i..];
          return;
        }
        i := i - 1;
      }
    }

    /** What the collecting state becomes when an event leaves it running. */
    lemma Continue(e: Event)
      requires Valid() && (e.GotTx? || e.Refused?)
      ensures Gated(history + [e]) && (relaysBlocks ==> Prompt(history + [e], currentBlock, since))
      ensures currentBlock.Some? ==>
        (since < |history| && Collecting(history, since, currentBlock.value) && Collecting(history + [e], since, currentBlock.value)
         && Missing(history + [e], since)
            == multiset(currentBlockTxHashes) - if e.GotTx? then multiset{e.txHash} else multiset{})
    {
      hide Missing, Gated, Prompt;
      GatedMore(history, e);
      if relaysBlocks { PromptMore(history, e, currentBlock, since); }
      if currentBlock.Some? {
        CollectingMore(history, since, currentBlock.value, e);
        MissingMore(history, since, e);
      }
    }

    /** The block is complete: it is relayed if anybody listens. */
    method Release(block: Block)
      requires Gated(history) && since < |history| && Collecting(history, since, block) && Missing(history, since) == multiset{}
      modifies this`history, this`currentBlock
      ensures currentBlock == None && history == old(history) + if relaysBlocks then [Relayed(block)] else []
      ensures Gated(history) && (relaysBlocks ==> Prompt(history, None, since))
    {
      hide Collecting, Missing, Gated, Prompt;
      currentBlock := None;
      if relaysBlocks {
        GatedRelay(history, block, since);
        PromptEnds(history, Relayed(block), since);
        history := history + [Relayed(block)];
      }
    }

    /** One of the transactions of the block being collected may have come. */
    method Arrive(txHash: Hash)
      requires currentBlock.Some? && Gated(history) && (relaysBlocks ==> Prompt(history, currentBlock, since))
      requires since < |history| && Collecting(history, since, currentBlock.value)
      requires Missing(history, since) == multiset(currentBlockTxHashes) - multiset{txHash} && knownTxHashSet == Elements(knownTxHashes)
      modifies this`history, this`currentBlock, this`currentBlockTxHashes
      ensures Valid()
      ensures Snapshot() == Came(old(Snapshot()), txHash).next && history == old(history) + Came(old(Snapshot()), txHash).events
    {
      hide Collecting, Missing, Gated, Prompt, Elements;
      TakeOff(txHash);
      NoneLeft(currentBlockTxHashes);
      if |currentBlockTxHashes| == 0 { Release(currentBlock.value); }
    }

    method AcceptTxMessage(txHash: Option<Hash>) returns (r: bool)
      requires Valid()
      modifies this`history, this`currentBlock, this`currentBlockTxHashes
      ensures Valid()
      ensures var reaction := ReactTx(old(Snapshot()), txHash);
           r == reaction.accepted && history == old(history) + reaction.events && Snapshot() == reaction.next
    {
      hide Collecting, Missing, Gated, Prompt, Elements, Came;
      if txHash == None || (!sentFilter && !sentGetdata) {
        Continue(Refused);
        history := history + [Refused];
        return false;
      }
      var got := GotTx(txHash.value);
      Continue(got);
      history := history + [got];
      if currentBlock.None? { return true; }
      ghost var events := Came(Snapshot(), txHash.value).events;
      Arrive(txHash.value);
      assert history == old(history) + ([got] + events);
      r := true;
    }

    method AcceptMerkleblockMessage(parsed: Option<Block>, valid: bool) returns (r: bool)
      requires Valid() && currentBlock == None
      modifies this`history, this`currentBlock, this`currentBlockTxHashes, this`since
      ensures Valid()
      ensures var reaction := ReactMerkleblock(old(Snapshot()), parsed, valid);
           r == reaction.accepted && history == old(history) + reaction.events && Snapshot() == reaction.next
    {
      hide Collecting, Missing, Gated, Prompt, Unknown, Elements;
      if parsed == None || !valid || (!sentFilter && !sentGetdata) {
        Continue(Refused);
        history := history + [Refused];
        return false;
      }
      r := true;
      var block := parsed.value;
      Announced(history, block, knownTxHashSet);
      CollectUnknown(block.txHashes);
      since := |history|;
      history := history + [Merkleblock(block, knownTxHashSet)];
      if |currentBlockTxHashes| > 0 {
        currentBlock := Some(block);
      } else {
        assert multiset(currentBlockTxHashes) == multiset{};
        Release(block);
      }
    }

    /** Adds the hashes not yet known to the missing ones, in reverse order. */
    method CollectUnknown(hashes: seq<Hash>)
      requires currentBlockTxHashes == []
      modifies this`currentBlockTxHashes
      ensures currentBlockTxHashes == Unknown(hashes, knownTxHashSet)
    {
      hide Unknown;
      var i := |hashes|;
      assert hashes[..i] == hashes;
      while i > 0
        invariant 0 <= i <= |hashes|
        invariant currentBlockTxHashes + Unknown(hashes[..i], knownTxHashSet) == Unknown(hashes, knownTxHashSet)
      {
        UnknownStep(currentBlockTxHashes, hashes, knownTxHashSet, i);
        if hashes[i - 1] !in knownTxHashSet { currentBlockTxHashes := currentBlockTxHashes + [hashes[i - 1]]; }
        i := i - 1;
      }
      UnknownNone(hashes, knownTxHashSet);
    }

    /** A message that is neither a transaction nor a merkleblock, while nothing is being collected. */
    lemma Pass()
      requires Valid()
      ensures Gated(history + [NonTx]) && Prompt(history + [NonTx], None, since)
    {
      hide Collecting, Missing, Gated, Prompt;
      GatedMore(history, NonTx);
      PromptEnds(history, NonTx, since);
    }

    /** _BRPeerAcceptInvMessage: the transactions not yet known become known and are requested. */
    method AcceptInvMessage(msg: Message) returns (r: bool)
      requires Valid() && currentBlock == None && msg.InvMessage?
      modifies this`history, this`knownTxHashes, this`knownTxHashSet, this`sentGetdata, this`awaitsMempool
      ensures Valid() && history == old(history) + [NonTx]
      ensures r <==> !InvRefused(msg, sentFilter, sentMempool)
      ensures Snapshot() == if InvTaken(msg, sentFilter, sentMempool) then InvNext(old(Snapshot()), msg) else old(Snapshot())
    {
      hide Collecting, Missing, Gated, Prompt, Elements;
      Pass();
      history := history + [NonTx];
      r := true;
      if !msg.complete {
        r := false;
      } else if |msg.txHashes| + msg.others > MAX_GETDATA_HASHES {
      } else if |msg.txHashes| > 0 && !sentFilter && !sentMempool {
        r := false;
      } else if |msg.txHashes| > 10_000 {
        r := false;
      } else if !msg.expected {
        r := false;
      } else {
        var unknown := FilterUnknown(msg.txHashes);
        UnknownAdds(msg.txHashes, knownTxHashSet, unknown);
        AddKnownTxHashes(unknown);
        if unknown != [] || (sentFilter && msg.wantsBlocks) { sentGetdata := true; }
        if msg.txHashes != [] { awaitsMempool := false; }
      }
    }

    method FilterUnknown(txHashes: seq<Hash>) returns (unknown: seq<Hash>)
      ensures forall h :: h in unknown <==> h in txHashes && h !in knownTxHashSet
    {
      unknown := [];
      var i := 0;
      while i < |txHashes|
        invariant i <= |txHashes| && forall h :: h in unknown <==> h in txHashes[..i] && h !in knownTxHashSet
      {
        assert txHashes[..i + 1] == txHashes[..i] + [txHashes[i]];
        if txHashes[i] !in knownTxHashSet { unknown := unknown + [txHashes[i]]; }
        i := i + 1;
      }
      assert txHashes[..i] == txHashes;
    }

    /** The dispatcher: any message other than a transaction abandons a block being collected. */
    method AcceptMessage(msg: Message) returns (r: bool)
      requires Valid()
      modifies this`history, this`currentBlock, this`currentBlockTxHashes, this`since, this`knownTxHashes, this`knownTxHashSet
      modifies this`sentGetdata, this`awaitsMempool
      ensures Valid()
      ensures var reaction := React(old(Snapshot()), msg);
           r == reaction.accepted && history == old(history) + reaction.events && Snapshot() == reaction.next
    {
      hide Collecting, Missing, Gated, Prompt, ReactTx, ReactMerkleblock, InvRefused, InvTaken, InvNext;
      if currentBlock.Some? && !msg.TxMessage? {
        Pass();
        currentBlockTxHashes := [];
        currentBlock := None;
        history := history + [NonTx];
        return false;
      }
      match msg {
        case TxMessage(txHash) => r := AcceptTxMessage(txHash);
        case MerkleblockMessage(block, valid) => r := AcceptMerkleblockMessage(block, valid);
        case InvMessage(_, _, _, _, _) => r := AcceptInvMessage(msg);
        case OtherMessage(accepted) =>
          Pass();
          history := history + [NonTx];
          r := accepted;
      }
    }

    ghost function Snapshot(): State
      reads this
    {
      State(currentBlock, multiset(currentBlockTxHashes), knownTxHashSet, sentFilter, sentGetdata, sentMempool, awaitsMempool, relaysBlocks)
    }

    // ---- What the manager has the peer send

    method SendFilterload()
      requires Valid()
      modifies this`sentFilter, this`sentMempool
      ensures Valid() && Snapshot() == Respond(old(Snapshot()), Filterload).next
    {
      hide React, Collecting, Missing, Gated, Prompt, Elements;
      sentFilter, sentMempool := true, false;
    }

    /** Hashes become known only with the first request, unless an answer is still awaited. */
    method SendMempool(txHashes: seq<Hash>, awaits: bool)
      requires Valid()
      modifies this`sentMempool, this`awaitsMempool, this`knownTxHashes, this`knownTxHashSet
      ensures Valid() && Snapshot() == Respond(old(Snapshot()), Mempool(txHashes, awaits)).next
    {
      hide React, Collecting, Missing, Gated, Prompt, Elements;
      var first := !sentMempool && !awaitsMempool;
      sentMempool := true;
      if first {
        AddKnownTxHashes(txHashes);
        awaitsMempool := awaits;
      }
    }

    method SendInv(txHashes: seq<Hash>)
      requires Valid()
      modifies this`knownTxHashes, this`knownTxHashSet
      ensures Valid() && Snapshot() == Respond(old(Snapshot()), Inv(txHashes)).next
    {
      hide React, Collecting, Missing, Gated, Prompt, Elements;
      AddKnownTxHashes(txHashes);
    }

    method SendGetdata(count: nat)
      requires Valid()
      modifies this`sentGetdata
      ensures Valid() && Snapshot() == Respond(old(Snapshot()), Getdata(count)).next
    {
      hide React, Collecting, Missing, Gated, Prompt, Elements;
      if 0 < count <= MAX_GETDATA_HASHES { sentGetdata := true; }
    }

    method EndMempool()
      requires Valid()
      modifies this`awaitsMempool
      ensures Valid() && Snapshot() == Respond(old(Snapshot()), MempoolOver).next
    {
      hide React, Collecting, Missing, Gated, Prompt, Elements;
      awaitsMempool := false;
    }

    /** One message or one call. */
    method Handle(input: Input)
      requires Valid()
      modifies this`history, this`currentBlock, this`currentBlockTxHashes, this`since, this`knownTxHashes, this`knownTxHashSet
      modifies this`sentFilter, this`sentGetdata, this`sentMempool, this`awaitsMempool
      ensures Valid() && Snapshot() == Respond(old(Snapshot()), input).next
      ensures history == old(history) + Respond(old(Snapshot()), input).events
    {
      hide React, Collecting, Missing, Gated, Prompt;
      match input {
        case Got(msg) => var r := AcceptMessage(msg);
        case Filterload => SendFilterload();
        case Mempool(txHashes, awaits) => SendMempool(txHashes, awaits);
        case Inv(txHashes) => SendInv(txHashes);
        case Getdata(count) => SendGetdata(count);
        case MempoolOver => EndMempool();
      }
    }

    /** Messages and calls one after the other. */
    method HandleAll(inputs: seq<Input>)
      requires Valid()
      modifies this`history, this`currentBlock, this`currentBlockTxHashes, this`since, this`knownTxHashes, this`knownTxHashSet
      modifies this`sentFilter, this`sentGetdata, this`sentMempool, this`awaitsMempool
      ensures Valid()
      ensures Snapshot() == After(old(Snapshot()), inputs) && history == old(history) + Log(old(Snapshot()), inputs)
    {
      hide Respond, Collecting, Missing, Gated, Prompt;
      ghost var s, done, log := Snapshot(), [], [];
      assert After(s, done) == s && Log(s, done) == log;
      hide After, Log;
      var i := 0;
      while i < |inputs|
        invariant i <= |inputs| && Valid() && done == inputs[..i]
        invariant Snapshot() == After(s, done) && log == Log(s, done) && history == old(history) + log
      {
        RunSnoc(s, done, inputs[i]);
        Handle(inputs[i]);
        log := log + Respond(After(s, done), inputs[i]).events;
        i, done := i + 1, done + [inputs[i]];
      }
      assert done == inputs;
    }
  }

  // ---- Runs of messages and calls

  /** What reacting to messages depends on. */
  datatype State = State(
    current: Option<Block>, missing: multiset<Hash>, known: set<Hash>,
    sentFilter: bool, sentGetdata: bool, sentMempool: bool, awaitsMempool: bool, relaysBlocks: bool)

  /** A message, or a call that the manager makes between two messages. */
  datatype Input =
    | Got(msg: Message)
    | Filterload
    | Mempool(txHashes: seq<Hash>, awaits: bool)
    | Inv(txHashes: seq<Hash>)
    | Getdata(count: nat)
    | MempoolOver

  datatype Reaction = Reaction(accepted: bool, events: seq<Event>, next: State)

  /** The effect of an inv that is taken. */
  function InvNext(s: State, msg: Message): State
    requires msg.InvMessage?
  {
    var isNews := exists h :: h in msg.txHashes && h !in s.known;
    s.(known := s.known + Elements(msg.txHashes),
       sentGetdata := s.sentGetdata || isNews || (s.sentFilter && msg.wantsBlocks),
       awaitsMempool := s.awaitsMempool && msg.txHashes == [])
  }

  /** A transaction that completes the block being collected makes it relayed. */
  function Came(s: State, txHash: Hash): Reaction
    requires s.current.Some?
  {
    var missing := s.missing - multiset{txHash};
    if missing != multiset{} then Reaction(true, [], s.(missing := missing))
    else Reaction(true, if s.relaysBlocks then [Relayed(s.current.value)] else [], s.(current := None, missing := missing))
  }

  function ReactTx(s: State, txHash: Option<Hash>): Reaction {
    if txHash.None? || !(s.sentFilter || s.sentGetdata) then Reaction(false, [Refused], s)
    else if s.current.None? then Reaction(true, [GotTx(txHash.value)], s)
    else Reaction(true, [GotTx(txHash.value)] + Came(s, txHash.value).events, Came(s, txHash.value).next)
  }

  /** A merkleblock is relayed at once if all its transactions are known. */
  function ReactMerkleblock(s: State, block: Option<Block>, valid: bool): Reaction {
    if block.None? || !valid || !(s.sentFilter || s.sentGetdata) then Reaction(false, [Refused], s) else
    var missing, announced := Unknown(block.value.txHashes, s.known), Merkleblock(block.value, s.known);
    if missing != [] then Reaction(true, [announced], s.(current := block, missing := multiset(missing)))
    else Reaction(true, [announced] + if s.relaysBlocks then [Relayed(block.value)] else [], s.(current := None, missing := multiset{}))
  }

  function React(s: State, msg: Message): Reaction {
    if s.current.Some? && !msg.TxMessage? then Reaction(false, [NonTx], s.(current := None, missing := multiset{}))
    else match msg
    case TxMessage(txHash) => ReactTx(s, txHash)
    case MerkleblockMessage(block, valid) => ReactMerkleblock(s, block, valid)
    case InvMessage(_, _, _, _, _) =>
      Reaction(!InvRefused(msg, s.sentFilter, s.sentMempool), [NonTx],
               if InvTaken(msg, s.sentFilter, s.sentMempool) then InvNext(s, msg) else s)
    case OtherMessage(accepted) => Reaction(accepted, [NonTx], s)
  }

  function Respond(s: State, input: Input): Reaction {
    match input
    case Got(msg) => React(s, msg)
    case Filterload => Reaction(true, [], s.(sentFilter := true, sentMempool := false))
    case Mempool(txHashes, awaits) =>
      Reaction(true, [], if s.sentMempool || s.awaitsMempool then s.(sentMempool := true)
                         else s.(sentMempool := true, awaitsMempool := awaits, known := s.known + Elements(txHashes)))
    case Inv(txHashes) => Reaction(true, [], s.(known := s.known + Elements(txHashes)))
    case Getdata(count) => Reaction(true, [], if 0 < count <= MAX_GETDATA_HASHES then s.(sentGetdata := true) else s)
    case MempoolOver => Reaction(true, [], s.(awaitsMempool := false))
  }

  function After(s: State, inputs: seq<Input>): State {
    if inputs == [] then s else Respond(After(s, inputs[..|inputs| - 1]), inputs[|inputs| - 1]).next
  }

  function Log(s: State, inputs: seq<Input>): seq<Event> {
    if inputs == [] then [] else
      Log(s, inputs[..|inputs| - 1]) + Respond(After(s, inputs[..|inputs| - 1]), inputs[|inputs| - 1]).events
  }

  /** The input makes the hash known: an inv that is taken, or a call that names it. */
  predicate MakesKnown(s: State, input: Input, h: Hash) {
    match input
    case Got(msg) => s.current.None? && msg.InvMessage? && InvTaken(msg, s.sentFilter, s.sentMempool) && h in msg.txHashes
    case Mempool(txHashes, _) => !s.sentMempool && !s.awaitsMempool && h in txHashes
    case Inv(txHashes) => h in txHashes
    case _ => false
  }

  /** The hash was known from the start, or one of the first k inputs made it known. */
  ghost predicate KnownBefore(s: State, inputs: seq<Input>, k: nat, h: Hash) {
    h in s.known || exists j :: 0 <= j < k && j < |inputs| && MakesKnown(After(s, inputs[..j]), inputs[j], h)
  }

  ghost predicate ArrivedAfter(inputs: seq<Input>, k: nat, h: Hash) {
    exists j :: k < j < |inputs| && inputs[j] == Got(TxMessage(Some(h)))
  }

  predicate IsTx(input: Input) { input.Got? ==> input.msg.TxMessage? }

  /** The block came as a valid merkleblock, no message but transactions came after it, and each that it
      proves is missing still, or was known before or came since. */
  ghost predicate Follows(s: State, inputs: seq<Input>, k: nat, block: Block, missing: multiset<Hash>) {
    && k < |inputs| && inputs[k] == Got(MerkleblockMessage(Some(block), true))
    && (forall j :: k < j < |inputs| ==> IsTx(inputs[j]))
    && (forall h :: h in block.txHashes ==> h in missing || KnownBefore(s, inputs, k, h) || ArrivedAfter(inputs, k, h))
  }

  lemma UnknownAdds(txHashes: seq<Hash>, known: set<Hash>, unknown: seq<Hash>)
    requires forall h :: h in unknown <==> h in txHashes && h !in known
    ensures known + Elements(unknown) == known + Elements(txHashes)
    ensures unknown != [] <==> exists h :: h in txHashes && h !in known
  {
    if unknown != [] { assert unknown[0] in unknown; }
  }

  lemma RunSnoc(s: State, inputs: seq<Input>, next: Input)
    ensures After(s, inputs + [next]) == Respond(After(s, inputs), next).next
    ensures Log(s, inputs + [next]) == Log(s, inputs) + Respond(After(s, inputs), next).events
  {
    assert (inputs + [next])[..|inputs|] == inputs;
  }

  lemma KnownStep(t: State, input: Input)
    ensures forall h :: h in Respond(t, input).next.known <==> h in t.known || MakesKnown(t, input, h)
  {
    if input.Got? {
      ReactKeepsKnown(t, input.msg);
      hide React;
    }
  }

  lemma ReactKeepsKnown(t: State, msg: Message)
    ensures React(t, msg).next.known
         == if t.current.None? && msg.InvMessage? && InvTaken(msg, t.sentFilter, t.sentMempool) then t.known + Elements(msg.txHashes) else t.known
  {
    hide Unknown, InvTaken, InvRefused;
  }

  /** Known is exactly what was known at the start or made known since. */
  lemma {:induction false} KnownIs(s: State, inputs: seq<Input>)
    ensures forall h :: h in After(s, inputs).known <==> KnownBefore(s, inputs, |inputs|, h)
  {
    if inputs != [] {
      var before, last := inputs[..|inputs| - 1], inputs[|inputs| - 1];
      KnownIs(s, before);
      KnownStep(After(s, before), last);
      hide Respond, MakesKnown, KnownBefore;
      forall h ensures h in After(s, inputs).known <==> KnownBefore(s, inputs, |inputs|, h) {
        KnownSnoc(s, inputs, h);
      }
    }
  }

  lemma KnownSnoc(s: State, inputs: seq<Input>, h: Hash)
    requires inputs != []
    ensures var n := |inputs| - 1;
         KnownBefore(s, inputs, n + 1, h) <==> KnownBefore(s, inputs[..n], n, h) || MakesKnown(After(s, inputs[..n]), inputs[n], h)
  {
    hide MakesKnown, After;
    var n := |inputs| - 1;
    forall j | 0 <= j < n ensures inputs[..n][..j] == inputs[..j] {}
    assert forall j :: 0 <= j < n ==> inputs[..n][j] == inputs[j];
  }

  lemma KnownLonger(s: State, inputs: seq<Input>, k: nat, h: Hash)
    requires inputs != [] && k < |inputs|
    ensures KnownBefore(s, inputs[..|inputs| - 1], k, h) ==> KnownBefore(s, inputs, k, h)
  {
    hide MakesKnown, After;
    var n := |inputs| - 1;
    forall j | 0 <= j < n ensures inputs[..n][..j] == inputs[..j] {}
    assert forall j :: 0 <= j < n ==> inputs[..n][j] == inputs[j];
  }

  /** One more tx message, or a call. */
  lemma FollowsMore(s: State, inputs: seq<Input>, k: nat, block: Block, missing: multiset<Hash>, missing': multiset<Hash>)
    requires inputs != [] && Follows(s, inputs[..|inputs| - 1], k, block, missing) && IsTx(inputs[|inputs| - 1])
    requires forall h :: h in missing ==> h in missing' || inputs[|inputs| - 1] == Got(TxMessage(Some(h)))
    ensures Follows(s, inputs, k, block, missing')
  {
    var before := inputs[..|inputs| - 1];
    assert forall j :: 0 <= j < |before| ==> inputs[j] == before[j];
    hide KnownBefore;
    forall h | h in block.txHashes ensures h in missing' || KnownBefore(s, inputs, k, h) || ArrivedAfter(inputs, k, h) {
      KnownLonger(s, inputs, k, h);
      if ArrivedAfter(before, k, h) {
        var j :| k < j < |before| && before[j] == Got(TxMessage(Some(h)));
        assert inputs[j] == Got(TxMessage(Some(h)));
      }
    }
  }

  /** A merkleblock just came. */
  lemma FollowsFirst(s: State, inputs: seq<Input>, block: Block, missing: multiset<Hash>)
    requires inputs != [] && inputs[|inputs| - 1] == Got(MerkleblockMessage(Some(block), true))
    requires missing == multiset(Unknown(block.txHashes, After(s, inputs[..|inputs| - 1]).known))
    ensures Follows(s, inputs, |inputs| - 1, block, missing)
  {
    var before, k := inputs[..|inputs| - 1], |inputs| - 1;
    KnownIs(s, before);
    hide After, Unknown, KnownBefore, ArrivedAfter;
    forall h | h in block.txHashes ensures h in missing || KnownBefore(s, inputs, k, h) {
      UnknownElements(block.txHashes, After(s, before).known, h);
      if h !in missing { KnownLonger(s, inputs, k, h); }
    }
  }

  lemma TxLeaves(t: State, txHash: Option<Hash>)
    ensures var t' := ReactTx(t, txHash).next;
         t'.current.Some? ==> t'.current == t.current && forall h :: h in t.missing ==> h in t'.missing || txHash == Some(h)
  {
    if txHash.Some? {
      var left := t.missing - multiset{txHash.value};
      forall h | h in t.missing && txHash != Some(h) ensures h in left {
        assert left[h] == t.missing[h];
      }
    }
  }

  lemma MessageLeaves(t: State, msg: Message)
    ensures var t' := React(t, msg).next;
         t'.current.Some? ==>
           if t.current.Some? then
             msg.TxMessage? && t'.current == t.current && forall h :: h in t.missing ==> h in t'.missing || msg == TxMessage(Some(h))
           else msg == MerkleblockMessage(t'.current, true) && t'.missing == multiset(Unknown(t'.current.value.txHashes, t.known))
  {
    if msg.TxMessage? {
      TxLeaves(t, msg.txHash);
      hide ReactTx;
    } else {
      hide Unknown, InvTaken, InvRefused;
    }
  }

  /** How an input leaves a block being collected. */
  lemma CurrentFrom(t: State, input: Input)
    ensures var t' := Respond(t, input).next;
         t'.current.Some? ==>
           if t.current.Some? then
             IsTx(input) && t'.current == t.current && forall h :: h in t.missing ==> h in t'.missing || input == Got(TxMessage(Some(h)))
           else if input.Got? then
             input.msg == MerkleblockMessage(t'.current, true) && t'.missing == multiset(Unknown(t'.current.value.txHashes, t.known))
           else false
  {
    if input.Got? { MessageLeaves(t, input.msg); }
    hide React, Unknown;
  }

  /** How an input makes a block relayed. */
  lemma RelayFrom(t: State, input: Input, e: Event)
    requires e.Relayed? && e in Respond(t, input).events
    ensures if IsTx(input) then t.current == Some(e.block) && forall h :: h in t.missing ==> input == Got(TxMessage(Some(h)))
            else input == Got(MerkleblockMessage(Some(e.block), true)) && Unknown(e.block.txHashes, t.known) == []
  {
    hide Unknown, InvTaken, InvRefused, InvNext;
    if IsTx(input) { OneLeft(t.missing, input.msg.txHash.value); }
  }

  lemma OneLeft(missing: multiset<Hash>, last: Hash)
    requires missing - multiset{last} == multiset{}
    ensures forall h :: h in missing ==> h == last
  {
    forall h | h in missing ensures h == last {
      assert (missing - multiset{last})[h] == 0;
    }
  }

  /** The block being collected has followed its announcement. */
  lemma {:induction false} CurrentFollows(s: State, inputs: seq<Input>)
    requires s.current == None
    ensures var t := After(s, inputs); t.current.Some? ==> exists k :: Follows(s, inputs, k, t.current.value, t.missing)
  {
    if inputs != [] {
      var before, last := inputs[..|inputs| - 1], inputs[|inputs| - 1];
      CurrentFollows(s, before);
      var t, t' := After(s, before), After(s, inputs);
      CurrentFrom(t, last);
      hide Follows, Unknown, Respond;
      if t'.current.Some? {
        if t.current.Some? {
          var k :| Follows(s, before, k, t.current.value, t.missing);
          FollowsMore(s, inputs, k, t.current.value, t.missing, t'.missing);
        } else {
          FollowsFirst(s, inputs, t'.current.value, t'.missing);
        }
      }
    }
  }

  /** A relayed block has followed its announcement, and nothing is missing. */
  lemma RelayedFollows(s: State, inputs: seq<Input>, e: Event) returns (k: nat)
    requires s.current == None && inputs != [] && e.Relayed?
    requires e in Respond(After(s, inputs[..|inputs| - 1]), inputs[|inputs| - 1]).events
    ensures Follows(s, inputs, k, e.block, multiset{})
  {
    var before, last := inputs[..|inputs| - 1], inputs[|inputs| - 1];
    var t := After(s, before);
    RelayFrom(t, last, e);
    CurrentFollows(s, before);
    hide Respond, Unknown, Follows, After;
    if IsTx(last) {
      k :| Follows(s, before, k, e.block, t.missing);
      FollowsMore(s, inputs, k, e.block, t.missing, multiset{});
    } else {
      k := |inputs| - 1;
      FollowsFirst(s, inputs, e.block, multiset{});
    }
  }

  /** Over any run of messages and calls: a block that is relayed came as a valid merkleblock, no message
      but transactions came since, and every transaction it proves was known from the start, had been made
      known by an inv or a call before the merkleblock, or has come since. */
  lemma {:induction false} RelayedIsComplete(s: State, inputs: seq<Input>, i: nat) returns (n: nat, k: nat)
    requires s.current == None && i < |Log(s, inputs)| && Log(s, inputs)[i].Relayed?
    ensures n <= |inputs| && Follows(s, inputs[..n], k, Log(s, inputs)[i].block, multiset{})
  {
    hide Respond, Follows;
    var before, e := inputs[..|inputs| - 1], Log(s, inputs)[i];
    if i < |Log(s, before)| {
      n, k := RelayedIsComplete(s, before, i);
      assert before[..n] == inputs[..n];
    } else {
      n := |inputs|;
      assert inputs[..n] == inputs;
      k := RelayedFollows(s, inputs, e);
    }
  }
}
