/** `formatWalletError` (frontend/src/utils/walletErrors.ts): an ordered
    classifier over the lower-cased message of a thrown value. */
module WalletErrors {
  import opened Wrappers
  import opened Text
  import opened Thrown

  // The five fixed messages, each cut into word-aligned pieces so that the
  // lemmas at the end of this module can refute patterns piece by piece.
  const Rejected: string := Concat(["Transaction", " rejected", " in wallet."])
  const WrongNetwork: string := Concat(["Wrong network.", " Switch networks", " in your wallet."])
  const PendingTx: string := Concat(["Pe", "nding", " tx detected. Speed", " up or", " cancel", " in your wallet, or", " increase gas."])
  const InsufficientFunds: string := Concat(["Insufficient", " funds for gas."])
  const RpcTimeout: string := Concat(["RPC", " timeout \U{2014} try again."])

  /** The five branches, in the order they are tried. */
  datatype Branch = Rejection | Network | Pending | Funds | Timeout

  const Order: seq<Branch> := [Rejection, Network, Pending, Funds, Timeout]

  function Patterns(b: Branch): seq<string>
  {
    match b
    case Rejection => ["user rejected", "denied"]
    case Network => ["wrong network", "unsupported chain", "chain mismatch", "chain id"]
    case Pending => ["replacement", "nonce"]
    case Funds => ["insufficient funds"]
    case Timeout => ["timeout"]
  }

  function Message(b: Branch): string
  {
    match b
    case Rejection => Rejected
    case Network => WrongNetwork
    case Pending => PendingTx
    case Funds => InsufficientFunds
    case Timeout => RpcTimeout
  }

  /** Some pattern of branch `b` occurs in the lower-cased text. */
  predicate Matches(lower: string, b: Branch)
  {
    exists p :: p in Patterns(b) && Contains(lower, p)
  }

  /** The first branch in `order` whose patterns occur, if any. */
  function FirstMatch(order: seq<Branch>, lower: string): (r: Option<Branch>)
    ensures r.Some? ==> r.value in order && Matches(lower, r.value)
    ensures r.None? <==> forall b :: b in order ==> !Matches(lower, b)
  {
    if order == [] then None
    else if Matches(lower, order[0]) then Some(order[0])
    else FirstMatch(order[1..], lower)
  }

  /** The classifier as written: substring tests on the lower-cased message,
      branch by branch. */
  function FormatMessage(message: string): (r: string)
    ensures r == message || r in {Rejected, WrongNetwork, PendingTx, InsufficientFunds, RpcTimeout}
  {
    var lower := Lower(message);
    if Contains(lower, "user rejected") || Contains(lower, "denied") then Rejected
    else if Contains(lower, "wrong network") || Contains(lower, "unsupported chain")
         || Contains(lower, "chain mismatch") || Contains(lower, "chain id") then WrongNetwork
    else if Contains(lower, "replacement") || Contains(lower, "nonce") then PendingTx
    else if Contains(lower, "insufficient funds") then InsufficientFunds
    else if Contains(lower, "timeout") then RpcTimeout
    else message
  }

  /** `formatWalletError(error)`. */
  function FormatWalletError(e: Thrown): (r: string)
    ensures r == MessageOf(e) || r in {Rejected, WrongNetwork, PendingTx, InsufficientFunds, RpcTimeout}
  {
    FormatMessage(MessageOf(e))
  }

  /** The patterns of one branch, written out as the disjunction the
      source tests. */
  predicate MatchesSpelled(lower: string, b: Branch)
  {
    match b
    case Rejection => Contains(lower, "user rejected") || Contains(lower, "denied")
    case Network =>
      Contains(lower, "wrong network") || Contains(lower, "unsupported chain")
      || Contains(lower, "chain mismatch") || Contains(lower, "chain id")
    case Pending => Contains(lower, "replacement") || Contains(lower, "nonce")
    case Funds => Contains(lower, "insufficient funds")
    case Timeout => Contains(lower, "timeout")
  }

  lemma MatchesIsSpelled(lower: string, b: Branch)
    ensures Matches(lower, b) <==> MatchesSpelled(lower, b)
  {
    var ps := Patterns(b);
    if MatchesSpelled(lower, b) {
      var p :| p in ps && Contains(lower, p);
    }
  }

  lemma FirstMatchOfOrder(lower: string)
    ensures FirstMatch(Order, lower)
         == if Matches(lower, Rejection) then Some(Rejection)
            else if Matches(lower, Network) then Some(Network)
            else if Matches(lower, Pending) then Some(Pending)
            else if Matches(lower, Funds) then Some(Funds)
            else if Matches(lower, Timeout) then Some(Timeout)
            else None
  {
    var o1 := [Network, Pending, Funds, Timeout];
    var o2 := [Pending, Funds, Timeout];
    var o3 := [Funds, Timeout];
    var o4 := [Timeout];
    assert Order[1..] == o1 && o1[1..] == o2 && o2[1..] == o3 && o3[1..] == o4 && o4[1..] == [];
    assert FirstMatch(o4, lower) == if Matches(lower, Timeout) then Some(Timeout) else None;
    assert FirstMatch(o3, lower) == if Matches(lower, Funds) then Some(Funds) else FirstMatch(o4, lower);
    assert FirstMatch(o2, lower) == if Matches(lower, Pending) then Some(Pending) else FirstMatch(o3, lower);
    assert FirstMatch(o1, lower) == if Matches(lower, Network) then Some(Network) else FirstMatch(o2, lower);
  }

  /** The classifier is the first-match table lookup: the earliest branch
      with an occurring pattern decides the message, and with none the
      message is returned unchanged. */
  lemma FormatIsFirstMatch(message: string)
    ensures FormatMessage(message)
         == match FirstMatch(Order, Lower(message))
            case Some(b) => Message(b)
            case None => message
  {
    var lower := Lower(message);
    MatchesIsSpelled(lower, Rejection);
    MatchesIsSpelled(lower, Network);
    MatchesIsSpelled(lower, Pending);
    MatchesIsSpelled(lower, Funds);
    MatchesIsSpelled(lower, Timeout);
    FirstMatchOfOrder(lower);
  }

  const RejectedPieces: seq<string> := ["transaction", " rejected", " in wallet."]

  lemma RejectedLower()
    ensures Lower(Rejected) == Concat(RejectedPieces)
  {
    LowerConcat(["Transaction", " rejected", " in wallet."], RejectedPieces);
  }

  lemma RejectedLacksUserUnsupported()
    ensures !Contains(Concat(RejectedPieces), "user")
    ensures !Contains(Concat(RejectedPieces), "unsupported")
  {
    NotContainsPieces(RejectedPieces, "user", [0, 0, 0]);
    NotContainsPieces(RejectedPieces, "unsupported", [0, 0, 0]);
  }

  lemma RejectedLacksIed()
    ensures !Contains(Concat(RejectedPieces), "ied")
  {
    NotContainsPieces(RejectedPieces, "ied", [1, 0, 2]);
  }

  lemma RejectedLacksWrong()
    ensures !Contains(Concat(RejectedPieces), "wrong")
  {
    NotContainsPieces(RejectedPieces, "wrong", [0, 0, 1]);
  }

  lemma RejectedLacksChain()
    ensures !Contains(Concat(RejectedPieces), "chain")
  {
    NotContainsPieces(RejectedPieces, "chain", [1, 1, 0]);
  }

  lemma RejectedLacksReplacement()
    ensures !Contains(Concat(RejectedPieces), "replacement")
  {
    NotContainsPieces(RejectedPieces, "replacement", [1, 2, 0]);
  }

  lemma RejectedLacksNonce()
    ensures !Contains(Concat(RejectedPieces), "nonce")
  {
    NotContainsPieces(RejectedPieces, "nonce", [4, 0, 1]);
  }

  lemma RejectedLacksInsufficient()
    ensures !Contains(Concat(RejectedPieces), "insufficient")
  {
    NotContainsPieces(RejectedPieces, "insufficient", [3, 0, 2]);
  }

  lemma RejectedLacksTimeout()
    ensures !Contains(Concat(RejectedPieces), "timeout")
  {
    NotContainsPieces(RejectedPieces, "timeout", [2, 1, 2]);
  }

  lemma RejectedMissesRejection()
    ensures !MatchesSpelled(Lower(Rejected), Rejection)
  {
    RejectedLower();
    RejectedLacksUserUnsupported();
    NotContainsByPart(Concat(RejectedPieces), "", "user", " rejected");
    assert "" + "user" + " rejected" == "user rejected";
    RejectedLacksIed();
    NotContainsByPart(Concat(RejectedPieces), "den", "ied", "");
    assert "den" + "ied" + "" == "denied";
  }

  lemma RejectedMissesNetwork()
    ensures !MatchesSpelled(Lower(Rejected), Network)
  {
    RejectedLower();
    RejectedLacksWrong();
    NotContainsByPart(Concat(RejectedPieces), "", "wrong", " network");
    assert "" + "wrong" + " network" == "wrong network";
    RejectedLacksUserUnsupported();
    NotContainsByPart(Concat(RejectedPieces), "", "unsupported", " chain");
    assert "" + "unsupported" + " chain" == "unsupported chain";
    RejectedLacksChain();
    NotContainsByPart(Concat(RejectedPieces), "", "chain", " mismatch");
    assert "" + "chain" + " mismatch" == "chain mismatch";
    NotContainsByPart(Concat(RejectedPieces), "", "chain", " id");
    assert "" + "chain" + " id" == "chain id";
  }

  lemma RejectedMissesPending()
    ensures !MatchesSpelled(Lower(Rejected), Pending)
  {
    RejectedLower();
    RejectedLacksReplacement();
    RejectedLacksNonce();
  }

  lemma RejectedMissesFunds()
    ensures !MatchesSpelled(Lower(Rejected), Funds)
  {
    RejectedLower();
    RejectedLacksInsufficient();
    NotContainsByPart(Concat(RejectedPieces), "", "insufficient", " funds");
    assert "" + "insufficient" + " funds" == "insufficient funds";
  }

  lemma RejectedMissesTimeout()
    ensures !MatchesSpelled(Lower(Rejected), Timeout)
  {
    RejectedLower();
    RejectedLacksTimeout();
  }

  const WrongNetworkPieces: seq<string> := ["wrong network.", " switch networks", " in your wallet."]

  lemma WrongNetworkLower()
    ensures Lower(WrongNetwork) == Concat(WrongNetworkPieces)
  {
    LowerConcat(["Wrong network.", " Switch networks", " in your wallet."], WrongNetworkPieces);
  }

  lemma WrongNetworkLacksUser()
    ensures !Contains(Concat(WrongNetworkPieces), "user")
  {
    NotContainsPieces(WrongNetworkPieces, "user", [0, 0, 1]);
  }

  lemma WrongNetworkLacksIed()
    ensures !Contains(Concat(WrongNetworkPieces), "ied")
  {
    NotContainsPieces(WrongNetworkPieces, "ied", [0, 2, 2]);
  }

  lemma WrongNetworkMissesRejection()
    ensures !MatchesSpelled(Lower(WrongNetwork), Rejection)
  {
    WrongNetworkLower();
    WrongNetworkLacksUser();
    NotContainsByPart(Concat(WrongNetworkPieces), "", "user", " rejected");
    assert "" + "user" + " rejected" == "user rejected";
    WrongNetworkLacksIed();
    NotContainsByPart(Concat(WrongNetworkPieces), "den", "ied", "");
    assert "den" + "ied" + "" == "denied";
  }

  const PendingTxPieces: seq<string> := ["pe", "nding", " tx detected. speed", " up or", " cancel", " in your wallet, or", " increase gas."]

  lemma PendingTxLower()
    ensures Lower(PendingTx) == Concat(PendingTxPieces)
  {
    LowerConcat(["Pe", "nding", " tx detected. Speed", " up or", " cancel", " in your wallet, or", " increase gas."], PendingTxPieces);
  }

  /** The pieces with the first two joined again, for the words that the
      cut in "pending" does not help with. */
  lemma PendingTxJoined()
    ensures Concat(PendingTxPieces) == Concat(["pe" + "nding"] + PendingTxPieces[2..])
  {
    assert PendingTxPieces == ["pe", "nding"] + PendingTxPieces[2..];
    ConcatSplitFirst("pe", "nding", PendingTxPieces[2..]);
  }

  lemma PendingTxLacksUser()
    ensures !Contains(Concat(PendingTxPieces), "user")
  {
    PendingTxJoined();
    NotContainsPieces(["pe" + "nding"] + PendingTxPieces[2..], "user", [0, 0, 1, 0, 1, 0]);
  }

  lemma PendingTxLacksIed()
    ensures !Contains(Concat(PendingTxPieces), "ied")
  {
    NotContainsPieces(PendingTxPieces, "ied", [0, 1, 0, 0, 0, 2, 2]);
  }

  lemma PendingTxLacksWrong()
    ensures !Contains(Concat(PendingTxPieces), "wrong")
  {
    PendingTxJoined();
    NotContainsPieces(["pe" + "nding"] + PendingTxPieces[2..], "wrong", [0, 0, 0, 0, 4, 0]);
  }

  lemma PendingTxLacksUnsupported()
    ensures !Contains(Concat(PendingTxPieces), "unsupported")
  {
    PendingTxJoined();
    NotContainsPieces(["pe" + "nding"] + PendingTxPieces[2..], "unsupported", [0, 0, 1, 0, 2, 0]);
  }

  lemma PendingTxLacksChain()
    ensures !Contains(Concat(PendingTxPieces), "chain")
  {
    PendingTxJoined();
    NotContainsPieces(["pe" + "nding"] + PendingTxPieces[2..], "chain", [0, 1, 0, 1, 0, 1]);
  }

  lemma PendingTxLacksReplacement()
    ensures !Contains(Concat(PendingTxPieces), "replacement")
  {
    PendingTxJoined();
    NotContainsPieces(["pe" + "nding"] + PendingTxPieces[2..], "replacement", [0, 0, 1, 0, 2, 2]);
  }

  lemma PendingTxLacksNonce()
    ensures !Contains(Concat(PendingTxPieces), "nonce")
  {
    PendingTxJoined();
    NotContainsPieces(["pe" + "nding"] + PendingTxPieces[2..], "nonce", [1, 0, 0, 1, 3, 1]);
  }

  lemma PendingTxLacksInsufficient()
    ensures !Contains(Concat(PendingTxPieces), "insufficient")
  {
    PendingTxJoined();
    NotContainsPieces(["pe" + "nding"] + PendingTxPieces[2..], "insufficient", [2, 0, 0, 0, 2, 3]);
  }

  lemma PendingTxLacksTimeout()
    ensures !Contains(Concat(PendingTxPieces), "timeout")
  {
    PendingTxJoined();
    NotContainsPieces(["pe" + "nding"] + PendingTxPieces[2..], "timeout", [0, 1, 0, 0, 2, 0]);
  }

  lemma PendingTxMissesRejection()
    ensures !MatchesSpelled(Lower(PendingTx), Rejection)
  {
    PendingTxLower();
    PendingTxLacksUser();
    NotContainsByPart(Concat(PendingTxPieces), "", "user", " rejected");
    assert "" + "user" + " rejected" == "user rejected";
    PendingTxLacksIed();
    NotContainsByPart(Concat(PendingTxPieces), "den", "ied", "");
    assert "den" + "ied" + "" == "denied";
  }

  lemma PendingTxMissesNetwork()
    ensures !MatchesSpelled(Lower(PendingTx), Network)
  {
    PendingTxLower();
    PendingTxLacksWrong();
    NotContainsByPart(Concat(PendingTxPieces), "", "wrong", " network");
    assert "" + "wrong" + " network" == "wrong network";
    PendingTxLacksUnsupported();
    NotContainsByPart(Concat(PendingTxPieces), "", "unsupported", " chain");
    assert "" + "unsupported" + " chain" == "unsupported chain";
    PendingTxLacksChain();
    NotContainsByPart(Concat(PendingTxPieces), "", "chain", " mismatch");
    assert "" + "chain" + " mismatch" == "chain mismatch";
    NotContainsByPart(Concat(PendingTxPieces), "", "chain", " id");
    assert "" + "chain" + " id" == "chain id";
  }

  lemma PendingTxMissesPending()
    ensures !MatchesSpelled(Lower(PendingTx), Pending)
  {
    PendingTxLower();
    PendingTxLacksReplacement();
    PendingTxLacksNonce();
  }

  lemma PendingTxMissesFunds()
    ensures !MatchesSpelled(Lower(PendingTx), Funds)
  {
    PendingTxLower();
    PendingTxLacksInsufficient();
    NotContainsByPart(Concat(PendingTxPieces), "", "insufficient", " funds");
    assert "" + "insufficient" + " funds" == "insufficient funds";
  }

  lemma PendingTxMissesTimeout()
    ensures !MatchesSpelled(Lower(PendingTx), Timeout)
  {
    PendingTxLower();
    PendingTxLacksTimeout();
  }

  const InsufficientFundsPieces: seq<string> := ["insufficient", " funds for gas."]

  lemma InsufficientFundsLower()
    ensures Lower(InsufficientFunds) == Concat(InsufficientFundsPieces)
  {
    LowerConcat(["Insufficient", " funds for gas."], InsufficientFundsPieces);
  }

  lemma InsufficientFundsLacksUser()
    ensures !Contains(Concat(InsufficientFundsPieces), "user")
  {
    NotContainsPieces(InsufficientFundsPieces, "user", [3, 2]);
  }

  lemma InsufficientFundsLacksIed()
    ensures !Contains(Concat(InsufficientFundsPieces), "ied")
  {
    NotContainsPieces(InsufficientFundsPieces, "ied", [2, 0]);
  }

  lemma InsufficientFundsLacksWrong()
    ensures !Contains(Concat(InsufficientFundsPieces), "wrong")
  {
    NotContainsPieces(InsufficientFundsPieces, "wrong", [0, 0]);
  }

  lemma InsufficientFundsLacksUnsupported()
    ensures !Contains(Concat(InsufficientFundsPieces), "unsupported")
  {
    NotContainsPieces(InsufficientFundsPieces, "unsupported", [4, 4]);
  }

  lemma InsufficientFundsLacksChain()
    ensures !Contains(Concat(InsufficientFundsPieces), "chain")
  {
    NotContainsPieces(InsufficientFundsPieces, "chain", [1, 0]);
  }

  lemma InsufficientFundsLacksReplacement()
    ensures !Contains(Concat(InsufficientFundsPieces), "replacement")
  {
    NotContainsPieces(InsufficientFundsPieces, "replacement", [0, 1]);
  }

  lemma InsufficientFundsLacksNonce()
    ensures !Contains(Concat(InsufficientFundsPieces), "nonce")
  {
    NotContainsPieces(InsufficientFundsPieces, "nonce", [1, 3]);
  }

  lemma InsufficientFundsMissesRejection()
    ensures !MatchesSpelled(Lower(InsufficientFunds), Rejection)
  {
    InsufficientFundsLower();
    InsufficientFundsLacksUser();
    NotContainsByPart(Concat(InsufficientFundsPieces), "", "user", " rejected");
    assert "" + "user" + " rejected" == "user rejected";
    InsufficientFundsLacksIed();
    NotContainsByPart(Concat(InsufficientFundsPieces), "den", "ied", "");
    assert "den" + "ied" + "" == "denied";
  }

  lemma InsufficientFundsMissesNetwork()
    ensures !MatchesSpelled(Lower(InsufficientFunds), Network)
  {
    InsufficientFundsLower();
    InsufficientFundsLacksWrong();
    NotContainsByPart(Concat(InsufficientFundsPieces), "", "wrong", " network");
    assert "" + "wrong" + " network" == "wrong network";
    InsufficientFundsLacksUnsupported();
    NotContainsByPart(Concat(InsufficientFundsPieces), "", "unsupported", " chain");
    assert "" + "unsupported" + " chain" == "unsupported chain";
    InsufficientFundsLacksChain();
    NotContainsByPart(Concat(InsufficientFundsPieces), "", "chain", " mismatch");
    assert "" + "chain" + " mismatch" == "chain mismatch";
    NotContainsByPart(Concat(InsufficientFundsPieces), "", "chain", " id");
    assert "" + "chain" + " id" == "chain id";
  }

  lemma InsufficientFundsMissesPending()
    ensures !MatchesSpelled(Lower(InsufficientFunds), Pending)
  {
    InsufficientFundsLower();
    InsufficientFundsLacksReplacement();
    InsufficientFundsLacksNonce();
  }

  const RpcTimeoutPieces: seq<string> := ["rpc", " timeout \U{2014} try again."]

  lemma RpcTimeoutLower()
    ensures Lower(RpcTimeout) == Concat(RpcTimeoutPieces)
  {
    LowerConcat(["RPC", " timeout \U{2014} try again."], RpcTimeoutPieces);
  }

  lemma RpcTimeoutLacksUser()
    ensures !Contains(Concat(RpcTimeoutPieces), "user")
  {
    NotContainsPieces(RpcTimeoutPieces, "user", [0, 1]);
  }

  lemma RpcTimeoutLacksIedWords()
    ensures !Contains(Concat(RpcTimeoutPieces), "ied")
    ensures !Contains(Concat(RpcTimeoutPieces), "unsupported")
    ensures !Contains(Concat(RpcTimeoutPieces), "insufficient")
  {
    NotContainsPieces(RpcTimeoutPieces, "ied", [0, 2]);
    NotContainsPieces(RpcTimeoutPieces, "unsupported", [0, 2]);
    NotContainsPieces(RpcTimeoutPieces, "insufficient", [0, 2]);
  }

  lemma RpcTimeoutLacksWrong()
    ensures !Contains(Concat(RpcTimeoutPieces), "wrong")
  {
    NotContainsPieces(RpcTimeoutPieces, "wrong", [0, 0]);
  }

  lemma RpcTimeoutLacksChain()
    ensures !Contains(Concat(RpcTimeoutPieces), "chain")
  {
    NotContainsPieces(RpcTimeoutPieces, "chain", [1, 0]);
  }

  lemma RpcTimeoutLacksReplacement()
    ensures !Contains(Concat(RpcTimeoutPieces), "replacement")
  {
    NotContainsPieces(RpcTimeoutPieces, "replacement", [1, 2]);
  }

  lemma RpcTimeoutLacksNonce()
    ensures !Contains(Concat(RpcTimeoutPieces), "nonce")
  {
    NotContainsPieces(RpcTimeoutPieces, "nonce", [0, 3]);
  }

  lemma RpcTimeoutMissesRejection()
    ensures !MatchesSpelled(Lower(RpcTimeout), Rejection)
  {
    RpcTimeoutLower();
    RpcTimeoutLacksUser();
    NotContainsByPart(Concat(RpcTimeoutPieces), "", "user", " rejected");
    assert "" + "user" + " rejected" == "user rejected";
    RpcTimeoutLacksIedWords();
    NotContainsByPart(Concat(RpcTimeoutPieces), "den", "ied", "");
    assert "den" + "ied" + "" == "denied";
  }

  lemma RpcTimeoutMissesNetwork()
    ensures !MatchesSpelled(Lower(RpcTimeout), Network)
  {
    RpcTimeoutLower();
    RpcTimeoutLacksWrong();
    NotContainsByPart(Concat(RpcTimeoutPieces), "", "wrong", " network");
    assert "" + "wrong" + " network" == "wrong network";
    RpcTimeoutLacksIedWords();
    NotContainsByPart(Concat(RpcTimeoutPieces), "", "unsupported", " chain");
    assert "" + "unsupported" + " chain" == "unsupported chain";
    RpcTimeoutLacksChain();
    NotContainsByPart(Concat(RpcTimeoutPieces), "", "chain", " mismatch");
    assert "" + "chain" + " mismatch" == "chain mismatch";
    NotContainsByPart(Concat(RpcTimeoutPieces), "", "chain", " id");
    assert "" + "chain" + " id" == "chain id";
  }

  lemma RpcTimeoutMissesPending()
    ensures !MatchesSpelled(Lower(RpcTimeout), Pending)
  {
    RpcTimeoutLower();
    RpcTimeoutLacksReplacement();
    RpcTimeoutLacksNonce();
  }

  lemma RpcTimeoutMissesFunds()
    ensures !MatchesSpelled(Lower(RpcTimeout), Funds)
  {
    RpcTimeoutLower();
    RpcTimeoutLacksIedWords();
    NotContainsByPart(Concat(RpcTimeoutPieces), "", "insufficient", " funds");
    assert "" + "insufficient" + " funds" == "insufficient funds";
  }

  lemma WrongNetworkMatchesNetwork()
    ensures MatchesSpelled(Lower(WrongNetwork), Network)
  {
    WrongNetworkLower();
    var ps := WrongNetworkPieces;
    assert Concat(ps) == ps[0] + Concat(ps[1..]);
    assert ps[0][0..13] == "wrong network";
    ContainsWitness(ps[0], "wrong network", 0);
    ContainsAppendLeft(ps[0], Concat(ps[1..]), "wrong network");
  }

  lemma InsufficientFundsMatchesFunds()
    ensures MatchesSpelled(Lower(InsufficientFunds), Funds)
  {
    InsufficientFundsLower();
    var ps := InsufficientFundsPieces;
    assert Concat(ps) == "insufficient funds" + " for gas.";
    ContainsSelf("insufficient funds");
    ContainsAppendLeft("insufficient funds", " for gas.", "insufficient funds");
  }

  lemma RpcTimeoutMatchesTimeout()
    ensures MatchesSpelled(Lower(RpcTimeout), Timeout)
  {
    RpcTimeoutLower();
    var ps := RpcTimeoutPieces;
    assert Concat(ps) == ps[0] + (ps[1] + []);
    assert ps[1] + [] == ps[1];
    assert ps[1][1..8] == "timeout";
    ContainsWitness(ps[1], "timeout", 1);
    ContainsAppendRight(ps[0], ps[1], "timeout");
  }

  /** Each fixed message classifies to its own branch, or to no branch at
      all, and so formats to itself. */
  lemma FixedMessageStable(b: Branch)
    ensures FormatMessage(Message(b)) == Message(b)
  {
    match b
    case Rejection =>
      RejectedMissesRejection();
      RejectedMissesNetwork();
      RejectedMissesPending();
      RejectedMissesFunds();
      RejectedMissesTimeout();
    case Network =>
      WrongNetworkMissesRejection();
      WrongNetworkMatchesNetwork();
    case Pending =>
      PendingTxMissesRejection();
      PendingTxMissesNetwork();
      PendingTxMissesPending();
      PendingTxMissesFunds();
      PendingTxMissesTimeout();
    case Funds =>
      InsufficientFundsMissesRejection();
      InsufficientFundsMissesNetwork();
      InsufficientFundsMissesPending();
      InsufficientFundsMatchesFunds();
    case Timeout =>
      RpcTimeoutMissesRejection();
      RpcTimeoutMissesNetwork();
      RpcTimeoutMissesPending();
      RpcTimeoutMissesFunds();
      RpcTimeoutMatchesTimeout();
  }

  /** Formatting an already formatted message changes nothing. */
  lemma FormatIdempotent(message: string)
    ensures FormatMessage(FormatMessage(message)) == FormatMessage(message)
  {
    var r := FormatMessage(message);
    if r == Rejected { FixedMessageStable(Rejection); }
    else if r == WrongNetwork { FixedMessageStable(Network); }
    else if r == PendingTx { FixedMessageStable(Pending); }
    else if r == InsufficientFunds { FixedMessageStable(Funds); }
    else if r == RpcTimeout { FixedMessageStable(Timeout); }
  }

  /** A message that mentions both a nonce and a timeout, and nothing of the
      two earlier branches, gets the pending-transaction message: the
      earlier branch wins. */
  lemma NonceBeatsTimeout(message: string)
    requires Contains(Lower(message), "nonce") && Contains(Lower(message), "timeout")
    requires !MatchesSpelled(Lower(message), Rejection) && !MatchesSpelled(Lower(message), Network)
    ensures FormatMessage(message) == PendingTx
  {
  }

  /** The error the receipt waits throw on a timeout: the timeout message
      without its final period. */
  const ReceiptTimeout: string := Concat(["RPC", " timeout \U{2014} try again"])

  lemma RpcTimeoutExtendsReceiptTimeout()
    ensures Lower(RpcTimeout) == Lower(ReceiptTimeout) + "."
  {
    var tail := " timeout \U{2014} try again";
    assert Concat([tail + "."]) == tail + "." + [];
    assert Concat(["RPC", tail + "."]) == "RPC" + Concat([tail + "."]);
    assert Concat([tail]) == tail + [];
    assert Concat(["RPC", tail]) == "RPC" + Concat([tail]);
    assert RpcTimeout == ReceiptTimeout + ".";
    LowerAppend(ReceiptTimeout, ".");
  }

  /** A branch that misses a text misses every prefix of it. */
  lemma MissesPrefix(a: string, b: string, br: Branch)
    requires !MatchesSpelled(a + b, br)
    ensures !MatchesSpelled(a, br)
  {
    MatchesIsSpelled(a, br);
    MatchesIsSpelled(a + b, br);
    if Matches(a, br) {
      var p :| p in Patterns(br) && Contains(a, p);
      ContainsAppendLeft(a, b, p);
    }
  }

  lemma ReceiptTimeoutMatchesTimeout()
    ensures MatchesSpelled(Lower(ReceiptTimeout), Timeout)
  {
    var ps := ["rpc", " timeout \U{2014} try again"];
    LowerConcat(["RPC", " timeout \U{2014} try again"], ps);
    assert Concat(ps) == ps[0] + (ps[1] + []);
    assert ps[1] + [] == ps[1];
    assert ps[1][1..8] == "timeout";
    ContainsWitness(ps[1], "timeout", 1);
    ContainsAppendRight(ps[0], ps[1], "timeout");
  }

  /** A receipt timeout is presented as the timeout message: no earlier
      branch matches it and the timeout branch does. */
  lemma ReceiptTimeoutFormats()
    ensures FormatMessage(ReceiptTimeout) == RpcTimeout
    ensures Contains(Lower(FormatMessage(ReceiptTimeout)), "timeout")
  {
    RpcTimeoutExtendsReceiptTimeout();
    RpcTimeoutMissesRejection();
    RpcTimeoutMissesNetwork();
    RpcTimeoutMissesPending();
    RpcTimeoutMissesFunds();
    MissesPrefix(Lower(ReceiptTimeout), ".", Rejection);
    MissesPrefix(Lower(ReceiptTimeout), ".", Network);
    MissesPrefix(Lower(ReceiptTimeout), ".", Pending);
    MissesPrefix(Lower(ReceiptTimeout), ".", Funds);
    ReceiptTimeoutMatchesTimeout();
    RpcTimeoutMatchesTimeout();
  }
}
