/** From a text to a signed chain of transactions and back (src/Main.cpp:83-120, 147-157). */
module Messages {
  import opened Bits
  import opened Options
  import opened Script
  import opened Transactions
  import opened Signatures
  import opened ScriptHashes
  import opened Carriers
  import CarrierWindows
  import opened Chains
  import opened Embedding
  import opened ChainBuilding
  import opened Runs
  import opened TransactionShapes
  import opened Authorization
  import opened Keypairs
  import opened Signing
  import HuffmanCodes
  import Compression
  import Huffman

  type Codes = HuffmanCodes.HuffCodeMap
  type Text = seq<Huffman.Symbol>

  /** A code for every supported character and the EoF. */
  ghost predicate CodesText(codes: Codes) {
    HuffmanCodes.PrefixCode(codes) && HuffmanCodes.NoEmptyWord(codes) && HuffmanCodes.EOF_SYMBOL in codes.left &&
    forall c: Huffman.Symbol :: !Compression.IsCharInvalid(c) ==> c in codes.left
  }

  /** A Huffman code for a text with every supported character and the EoF is such a code. */
  lemma GeneratedCodesText(codes: Codes, frequencies: Huffman.FreqMap)
    requires Compression.HuffmanCode(codes, frequencies) && HuffmanCodes.EOF_SYMBOL in frequencies
    requires forall c: Huffman.Symbol :: !Compression.IsCharInvalid(c) ==> c in frequencies
    ensures CodesText(codes)
  {
    hide Compression.HuffmanCode, HuffmanCodes.PrefixCode, HuffmanCodes.NoEmptyWord;
    Compression.HuffmanCodeIsPrefixCode(codes, frequencies);
    assert !Compression.IsCharInvalid(0x20) && 0x20 != HuffmanCodes.EOF_SYMBOL;
    assert HuffmanCodes.NoEmptyWord(codes);
  }

  method BuildCodes(sample: Text) returns (codes: Codes)
    requires HuffmanCodes.EOF_SYMBOL in sample && forall c: Huffman.Symbol :: !Compression.IsCharInvalid(c) ==> c in sample
    ensures CodesText(codes)
  {
    hide Compression.HuffmanCode;
    var frequencies := Compression.ComputeFrequencies(sample);
    codes := Compression.GenerateCodes(frequencies);
    GeneratedCodesText(codes, frequencies);
  }

  /** Generated keys, loaded into the store, make a session ready for messages. */
  method OpenSession(setup: Setup, supply: nat -> Key, ghost bound: nat) returns (session: Session)
    requires SupplyCovers(supply, setup.suffixBits, bound) && HashSizes(setup.crypto)
    requires forall i: nat :: i < bound ==> GoodKey(setup.crypto, setup.signer, supply(i))
    requires SuppliedHashesDiffer(supply, bound, setup.crypto)
    ensures fresh(session) && session.Ready() && session.setup == setup.(keyMap := session.setup.keyMap)
  {
    hide KeyFor, GoodKey, KeySuffix, SupplyCovers;
    var ready, store := LoadKeys(setup, supply, bound);
    EntriesDiffer(ready.keyMap, setup.suffixBits, supply, bound, setup.crypto);
    session := new Session(ready, store);
  }

  ghost predicate NoCollisions(crypto: Crypto, scripts: set<Script>) {
    forall s :: s in scripts ==> NoCollision(crypto, s, scripts)
  }

  /** The wallet signs the inputs and leaves the outputs alone. */
  ghost predicate KeepsOutputs(wallet: Tx -> Option<Tx>) {
    forall t: Tx :: wallet(t).Some? ==> wallet(t).value.vout == t.vout
  }

  /** The bits that stand for a text. */
  ghost function MessageBits(text: Text, codes: Codes): (r: DataBits)
    requires CodesText(codes)
  {
    Compression.TransformedRoundTrip(text, [], codes);
    Compression.Compressed(Compression.TransformCharDomain(text), codes).value
  }

  /** Reading the chain gives the text. */
  ghost predicate Reads(txs: seq<Tx>, suffixBits: nat, codes: Codes, text: Text) {
    txs != [] && DataInChain(txs, suffixBits).Some? &&
    Compression.Decode(DataInChain(txs, suffixBits).value, [], codes) == text
  }

  method ReadMessage(txs: seq<Tx>, suffixBits: nat, codes: Codes) returns (text: Text)
    requires txs != [] && DataInChain(txs, suffixBits).Some?
    ensures Reads(txs, suffixBits, codes, text)
  {
    hide DataInChain;
    var compressed := ExtractData(txs, suffixBits);
    text := Compression.Decompress(compressed, codes);
  }

  /** Padding zeros do not disturb the text. */
  lemma PaddedMessage(text: Text, codes: Codes, txs: seq<Tx>, suffixBits: nat)
    requires CodesText(codes) && GivesBack(txs, suffixBits, MessageBits(text, codes))
    ensures Reads(txs, suffixBits, codes, Compression.TransformCharDomain(text))
  {
    hide DataInChain;
    var bits, found := MessageBits(text, codes), DataInChain(txs, suffixBits).value;
    Compression.TransformedRoundTrip(text, Zeros(|found| - |bits|), codes);
  }

  /** Authorization keeps what is read. */
  lemma AuthorizedReads(setup: Setup, added: set<Script>, txs: seq<Tx>, signed: seq<Tx>)
    requires |txs| == |signed| >= 2 && EmbeddedUpTo(setup, added, txs, |txs| - 1)
    requires signed[0].vout == txs[0].vout && forall i :: 1 <= i < |txs| ==> SameContent(txs[i], signed[i])
    ensures DataInChain(signed, setup.suffixBits) == DataInChain(txs, setup.suffixBits)
  {
    hide SameContent, ClaimsEach, RedeemedBy, Spends, SmallInputs, DataUpTo;
    forall i | 0 <= i < |txs| - 1
      ensures |txs[i].vout| - Nulldatas(txs[i].vout) <= |txs[i + 1].vin|
    {
      assert EmbeddedAt(setup, added, txs, i);
    }
    ContentKeepsChain(txs, signed, |txs| - 1, setup.suffixBits);
  }

  lemma ChainIsSignable(setup: Setup, store: Signing.KeyStore, added: set<Script>, txs: seq<Tx>, first: Tx)
    requires |txs| >= 2 && EmbeddedUpTo(setup, added, txs, |txs| - 1) && first.vout == txs[0].vout
    requires StoresAll(setup.crypto, store, added) && NoCollisions(setup.crypto, added)
    ensures ChainSignable(setup, store, first, txs)
  {
    hide Embedded, AllSignable, ClaimsExist, StoresAll, NoCollision;
    forall i | 1 <= i < |txs|
      ensures AllSignable(setup, store, if i == 1 then first else txs[i - 1], txs[i])
    {
      assert EmbeddedAt(setup, added, txs, i - 1);
      EmbeddedIsSignable(setup, store, added, txs[i - 1], txs[i], SumOfValues(txs[i - 1].vout));
      SameOutputsSignable(setup, store, txs[i - 1], if i == 1 then first else txs[i - 1], txs[i]);
    }
  }

  lemma ClaimsOfChain(setup: Setup, added: set<Script>, txs: seq<Tx>, first: Tx)
    requires |txs| >= 2 && EmbeddedUpTo(setup, added, txs, |txs| - 1) && first.vout == txs[0].vout
    ensures ClaimsExist(first, txs[1]) && forall i :: 2 <= i < |txs| ==> ClaimsExist(txs[i - 1], txs[i])
  {
    hide ClaimsEach, RedeemedBy, Spends, SmallInputs;
    forall i | 1 <= i < |txs|
      ensures ClaimsExist(if i == 1 then first else txs[i - 1], txs[i])
    {
      assert EmbeddedAt(setup, added, txs, i - 1);
    }
  }

  /** Every message has the bits of its EoF. */
  lemma MessageHasBits(text: Text, codes: Codes)
    requires CodesText(codes)
    ensures MessageBits(text, codes) != []
  {
    hide Compression.Encode, Compression.TransformCharDomain;
    Compression.TransformedRoundTrip(text, [], codes);
  }

  /** Sends a text. Every chain that is returned is signed, and as long as no two redeem scripts share a hash it
      reads as the text again. With different hashes and a wallet that signs there is a chain exactly when the
      run of the embedding loop completes. */
  method SendMessage(session: Session, text: Text, codes: Codes, nBudget: nat, prevOut: seq<OutPoint>,
                     destination: Script, wallet: Tx -> Option<Tx>) returns (result: Option<seq<Tx>>, ghost run: Run)
    requires session.Ready() && session.setup.randomBits <= 255 && nBudget < INT64
    requires CodesText(codes) && KeepsOutputs(wallet)
    modifies session
    ensures session.Ready()
    ensures result.Some? ==> SignedChain(session.setup.crypto, result.value)
    ensures result.Some? && NoCollisions(session.setup.crypto, session.added) ==>
              AllKeysSpend(session.setup.crypto, result.value) &&
              CarrierWindows.ChainHolds(MessageBits(text, codes), result.value, session.setup.suffixBits) &&
              Reads(result.value, session.setup.suffixBits, codes, Compression.TransformCharDomain(text))
    ensures IsRun(session.setup, InputsFor(prevOut), MessageBits(text, codes), nBudget, run)
    ensures result.Some? ==> Completes(session.setup, run)
    ensures Completes(session.setup, run) && NoCollisions(session.setup.crypto, session.added) ==>
              (forall t: Tx :: wallet(t).Some?) ==> result.Some?
  {
    hide Conserves, EmbeddedUpTo, Provided, StoresAll, SignedChain, AllKeysSpend, SpentByKeys, ChainSignable, NoCollisions,
         ClaimsExist,         SameContent, DataInChain, InputsFor, AreSteps, LeadsTo, Goes, TransactionFee;
    var setup := session.setup;
    var data := Compression.TransformCharDomain(text);
    Compression.TransformedRoundTrip(text, [], codes);
    MessageHasBits(text, codes);
    var compressed := Compression.Compress(data, codes);
    assert compressed == Some(MessageBits(text, codes));
    var chain;
    chain, run := EmbedData(session, compressed.value, nBudget, prevOut, destination);
    if chain.None? {
      return None, run;
    }
    var txs := chain.value;
    var first := wallet(txs[0]);
    ClaimsOfChain(setup, session.added, txs, txs[0]);
    if first.Some? {
      ClaimsOfChain(setup, session.added, txs, first.value);
      if NoCollisions(setup.crypto, session.added) {
        ChainIsSignable(setup, session.store, session.added, txs, first.value);
      }
    }
    result := AuthorizeTransactions(setup, session.store, txs, first);
    PaddedMessage(text, codes, txs, setup.suffixBits);
    if result.Some? && NoCollisions(setup.crypto, session.added) {
      AuthorizedReads(setup, session.added, txs, result.value);
      GivenBackIsHeld(result.value, setup.suffixBits, MessageBits(text, codes));
    }
  }
}
