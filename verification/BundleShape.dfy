/** The order of posts that a submission leaves behind. */
module BundleShape {
  import opened OrderflowTrace

  // Stages only move forward

  /** All posts lie before the stage about to be tried. */
  ghost predicate Before(posts: seq<Post>, next: Stage)
  {
    forall i :: 0 <= i < |posts| ==> BeforeAt(posts, i, next)
  }

  ghost predicate BeforeAt(posts: seq<Post>, i: nat, next: Stage)
    requires i < |posts|
  {
    Earlier(posts[i].stage, next)
  }

  lemma BeforeLater(posts: seq<Post>, s: Stage, t: Stage)
    requires Before(posts, s) && Earlier(s, t)
    ensures Before(posts, t)
  {
    forall i | 0 <= i < |posts| ensures BeforeAt(posts, i, t) { assert BeforeAt(posts, i, s); }
  }

  lemma BeforeSnoc(posts: seq<Post>, p: Post, t: Stage)
    requires Before(posts, p.stage) && Earlier(p.stage, t)
    ensures Before(posts + [p], t)
  {
    forall i | 0 <= i < |posts + [p]| ensures BeforeAt(posts + [p], i, t) {
      assert i < |posts| ==> BeforeAt(posts, i, p.stage);
    }
  }

  ghost predicate LastOk(posts: seq<Post>) { posts != [] && posts[|posts| - 1].Ok() }

  /** The n-th attempt adds at most one post, made at `stage` to `name` with `payload`. */
  ghost predicate AtMostOneMore(posts0: seq<Post>, posts: seq<Post>, n: nat, stage: Stage, name: Name, payload: seq<Tx>)
  {
    posts == posts0 ||
      (posts != [] && posts == posts0 + [posts[|posts| - 1]] &&
       var p := posts[|posts| - 1];
       p.at == n && p.stage == stage && p.endpoint == name && p.payload == payload)
  }

  lemma BeforeStep(posts0: seq<Post>, posts: seq<Post>, n: nat, s: Stage, name: Name, payload: seq<Tx>, t: Stage)
    requires Before(posts0, s) && AtMostOneMore(posts0, posts, n, s, name, payload) && Earlier(s, t)
    ensures Before(posts, t)
  {
    if posts == posts0 { BeforeLater(posts, s, t); } else { BeforeSnoc(posts0, posts[|posts| - 1], t); }
  }

  // Attempts

  /** The attempts that `rounds` rounds of `n` attempts take. */
  function Turns(rounds: nat, n: nat): (t: nat)
  {
    if rounds == 0 then 0 else n + Turns(rounds - 1, n)
  }

  lemma {:induction false} TurnsProduct(rounds: nat, n: nat)
    ensures Turns(rounds, n) == rounds * n
  {
    if rounds > 0 {
      TurnsProduct(rounds - 1, n);
      assert rounds * n == (rounds - 1) * n + n;
    }
  }

  lemma {:induction false} TurnsMonotone(r: nat, r': nat, n: nat, n': nat)
    requires r <= r' && n <= n'
    ensures Turns(r, n) <= Turns(r', n')
  {
    if r > 0 {
      TurnsMonotone(r - 1, r' - 1, n, n');
    } else if r' > 0 {
      TurnsMonotone(0, r' - 1, n, n');
    }
  }

  // A single transaction

  /** The posts of a single-transaction submission: each to the endpoint of its slot, in the attempt
      that is this slot's, carrying that transaction, and none accepted except perhaps the last. */
  ghost predicate SingleShape(endpoints: seq<Name>, tx: Tx, posts: seq<Post>)
  {
    forall i :: 0 <= i < |posts| ==> SingleAt(endpoints, tx, posts, i)
  }

  ghost predicate SingleAt(endpoints: seq<Name>, tx: Tx, posts: seq<Post>, i: nat)
    requires i < |posts|
  {
    var p := posts[i];
    && p.stage.Single? && p.stage.ep < |endpoints| && p.endpoint == endpoints[p.stage.ep] && p.payload == [tx]
    && p.at == Turns(p.stage.round, |endpoints|) + p.stage.ep + 1
    && Before(posts[..i], p.stage) && !LastOk(posts[..i])
  }

  /** No endpoint has accepted the transaction yet, and the n-th attempt is the one at slot `e` of this
      round. */
  ghost predicate SingleStanding(names: seq<Name>, tx: Tx, posts: seq<Post>, n: nat, round: nat, e: nat)
  {
    && SingleShape(names, tx, posts) && !LastOk(posts) && Before(posts, Single(round, e))
    && n == Turns(round, |names|) + e + 1
  }

  lemma SingleStep(names: seq<Name>, tx: Tx, posts0: seq<Post>, posts: seq<Post>, n: nat, round: nat, e: nat)
    requires SingleStanding(names, tx, posts0, n, round, e) && e < |names|
    requires AtMostOneMore(posts0, posts, n, Single(round, e), names[e], [tx])
    ensures SingleShape(names, tx, posts)
    ensures !LastOk(posts) ==> SingleStanding(names, tx, posts, n + 1, round, e + 1)
  {
    BeforeStep(posts0, posts, n, Single(round, e), names[e], [tx], Single(round, e + 1));
    if posts != posts0 {
      forall i | 0 <= i < |posts| ensures SingleAt(names, tx, posts, i) {
        assert posts[..|posts0|] == posts0;
        if i < |posts0| {
          assert SingleAt(names, tx, posts0, i) && posts[..i] == posts0[..i];
        }
      }
    }
  }

  lemma SingleNextRound(names: seq<Name>, tx: Tx, posts: seq<Post>, n: nat, round: nat)
    requires SingleStanding(names, tx, posts, n, round, |names|)
    ensures SingleStanding(names, tx, posts, n, round + 1, 0)
  {
    BeforeLater(posts, Single(round, |names|), Single(round + 1, 0));
  }

  // A bundle

  /** The raw transactions, the endpoints they may go to, and the number of sequential rounds. */
  datatype Bundle = Bundle(txs: seq<Tx>, builders: seq<Name>, rpcs: seq<Name>, rounds: nat)

  /** The post went to the endpoint its stage names and carried what that stage carries. */
  ghost predicate Fits(b: Bundle, p: Post)
  {
    match p.stage
    case Single(_, _) => false
    case Builder(e) => e < |b.builders| && p.endpoint == b.builders[e] && p.payload == b.txs
    case Rpc(r, x, e) => r < b.rounds && e < |b.rpcs| && x < |b.txs| && p.endpoint == b.rpcs[e]
      && p.payload == [b.txs[x]]
    case Public => b.txs != [] && p.endpoint == PublicFallback && p.payload == [b.txs[0]]
  }

  /** Transaction `x` was accepted by an rpc endpoint in round `r`. */
  ghost predicate AcceptedIn(posts: seq<Post>, r: nat, x: nat)
  {
    exists i :: 0 <= i < |posts| && Accepts(posts[i], r, x)
  }

  ghost predicate Accepts(p: Post, r: nat, x: nat)
  {
    p.Ok() && p.stage.Rpc? && p.stage.round == r && p.stage.txIndex == x
  }

  /** The attempt that reaches this stage if no round gets even its first transaction through. */
  function Earliest(b: Bundle, s: Stage): nat
  {
    match s
    case Single(_, e) => e + 1
    case Builder(e) => e + 1
    case Rpc(r, _, e) => |b.builders| + Turns(r, |b.rpcs|) + e + 1
    case Public => |b.builders| + Turns(b.rounds, |b.rpcs|) + 1
  }

  /** The attempt that reaches this stage if every round before gets stuck at its last transaction, at
      the last endpoint of each. */
  function Latest(b: Bundle, s: Stage): nat
  {
    match s
    case Single(_, e) => e + 1
    case Builder(e) => e + 1
    case Rpc(r, x, e) => |b.builders| + Turns(r, Turns(|b.txs|, |b.rpcs|)) + Turns(x, |b.rpcs|) + e + 1
    case Public => |b.builders| + Turns(b.rounds, Turns(|b.txs|, |b.rpcs|)) + 1
  }

  /** Some round got its first transaction through. */
  ghost predicate Partial(posts: seq<Post>)
  {
    exists r: nat :: AcceptedIn(posts, r, 0)
  }

  /** The n-th attempt may be the one at `next` after these posts. The quantifier keeps the arithmetic
      of TimedAt out of the proofs that only hand this fact on. */
  ghost predicate Timed(b: Bundle, posts: seq<Post>, n: nat, next: Stage)
  {
    forall s :: s == next ==> TimedAt(b, posts, n, s)
  }

  /** Which attempt it is is settled as long as no round has got its first transaction through. */
  ghost predicate TimedAt(b: Bundle, posts: seq<Post>, n: nat, next: Stage)
  {
    Earliest(b, next) <= n <= Latest(b, next) && (Partial(posts) || n == Earliest(b, next))
  }

  /** Every post fits its stage and comes at its turn, stages only move forward, and a transaction is
      posted in a round only after its predecessor was accepted in that round. */
  ghost predicate Shape(b: Bundle, posts: seq<Post>)
  {
    forall i :: 0 <= i < |posts| ==> ShapeAt(b, posts, i)
  }

  ghost predicate ShapeAt(b: Bundle, posts: seq<Post>, i: nat)
    requires i < |posts|
  {
    && Fits(b, posts[i]) && Before(posts[..i], posts[i].stage)
    && Ready(posts[..i], posts[i].stage) && Timed(b, posts[..i], posts[i].at, posts[i].stage)
  }

  /** The transaction about to be posted has not been accepted in this round, but its predecessor
      has. */
  ghost predicate Ready(posts: seq<Post>, next: Stage)
  {
    next.Rpc? ==>
      && !AcceptedIn(posts, next.round, next.txIndex)
      && (0 < next.txIndex ==> AcceptedIn(posts, next.round, next.txIndex - 1))
  }

  lemma ShapeStep(b: Bundle, posts0: seq<Post>, posts: seq<Post>, n: nat, stage: Stage, name: Name, payload: seq<Tx>)
    requires Shape(b, posts0) && Before(posts0, stage) && Ready(posts0, stage) && Timed(b, posts0, n, stage)
    requires AtMostOneMore(posts0, posts, n, stage, name, payload)
    requires posts != posts0 ==> Fits(b, posts[|posts| - 1])
    ensures Shape(b, posts)
  {
    if posts != posts0 {
      forall i | 0 <= i < |posts| ensures ShapeAt(b, posts, i) {
        assert posts[..|posts0|] == posts0;
        if i < |posts0| {
          assert ShapeAt(b, posts0, i) && posts[..i] == posts0[..i];
        }
      }
    }
  }

  lemma AcceptedStep(posts0: seq<Post>, posts: seq<Post>, n: nat, stage: Stage, name: Name, payload: seq<Tx>, r: nat,
                     x: nat)
    requires AtMostOneMore(posts0, posts, n, stage, name, payload) && AcceptedIn(posts0, r, x)
    ensures AcceptedIn(posts, r, x)
  {
    var i :| 0 <= i < |posts0| && Accepts(posts0[i], r, x);
    assert posts[i] == posts0[i];
  }

  /** The first `n` transactions were each accepted in round `r`. */
  ghost predicate RoundComplete(posts: seq<Post>, r: nat, n: nat)
  {
    forall x :: 0 <= x < n ==> AcceptedIn(posts, r, x)
  }

  lemma RoundStep(posts0: seq<Post>, posts: seq<Post>, n: nat, stage: Stage, name: Name, payload: seq<Tx>, r: nat,
                  x: nat)
    requires AtMostOneMore(posts0, posts, n, stage, name, payload) && stage.Rpc? && stage.round == r
    requires stage.txIndex == x
    requires RoundComplete(posts0, r, x) && !AcceptedIn(posts0, r, x)
    ensures RoundComplete(posts, r, x)
    ensures AcceptedIn(posts, r, x) <==> posts != posts0 && LastOk(posts)
  {
    forall y | 0 <= y < x ensures AcceptedIn(posts, r, y) {
      AcceptedStep(posts0, posts, n, stage, name, payload, r, y);
    }
    if posts != posts0 {
      assert posts[|posts| - 1].Ok() ==> Accepts(posts[|posts| - 1], r, x);
      assert forall i :: 0 <= i < |posts0| ==> posts[i] == posts0[i];
    }
  }

  /** In a round the acceptances follow the order of the transactions. */
  lemma AcceptedInOrder(b: Bundle, posts: seq<Post>, r: nat, x: nat, y: nat, i: nat, j: nat)
    requires Shape(b, posts) && i < |posts| && j < |posts|
    requires Accepts(posts[i], r, x) && Accepts(posts[j], r, y) && x < y
    ensures i < j
  {
    if j < i { StagesAdvance(b, posts, j, i); }
  }

  lemma StagesAdvance(b: Bundle, posts: seq<Post>, i: nat, j: nat)
    requires Shape(b, posts) && i < j < |posts|
    ensures Earlier(posts[i].stage, posts[j].stage)
  {
    assert ShapeAt(b, posts, j);
    assert BeforeAt(posts[..j], i, posts[j].stage);
  }

  lemma NotYetAccepted(posts: seq<Post>, r: nat, x: nat)
    requires Before(posts, Rpc(r, x, 0))
    ensures !AcceptedIn(posts, r, x)
  {
    if AcceptedIn(posts, r, x) {
      var i :| 0 <= i < |posts| && Accepts(posts[i], r, x);
      assert !Earlier(posts[i].stage, Rpc(r, x, 0));
      Contradicts(posts, i, Rpc(r, x, 0));
    }
  }

  lemma Contradicts(posts: seq<Post>, i: nat, next: Stage)
    requires i < |posts| && !Earlier(posts[i].stage, next)
    ensures !Before(posts, next)
  {
    assert !BeforeAt(posts, i, next);
  }

  /** Nothing accepted so far completes the submission of `n` transactions: no builder or public
      post was accepted, and no round got its last transaction through. */
  ghost predicate Unfinished(posts: seq<Post>, n: nat)
  {
    forall i :: 0 <= i < |posts| ==> UnfinishedAt(posts, i, n)
  }

  ghost predicate UnfinishedAt(posts: seq<Post>, i: nat, n: nat)
    requires i < |posts|
  {
    posts[i].Ok() ==> posts[i].stage.Rpc? && posts[i].stage.txIndex + 1 < n
  }

  lemma UnfinishedMeans(posts: seq<Post>, n: nat, r: nat)
    requires Unfinished(posts, n) && 0 < n
    ensures !RoundComplete(posts, r, n)
    ensures forall i :: 0 <= i < |posts| && posts[i].Ok() ==> posts[i].stage.Rpc?
  {
    forall i | 0 <= i < |posts| ensures !Accepts(posts[i], r, n - 1) && (posts[i].Ok() ==> posts[i].stage.Rpc?) {
      assert UnfinishedAt(posts, i, n);
    }
    assert !AcceptedIn(posts, r, n - 1);
  }

  lemma UnfinishedStep(posts0: seq<Post>, posts: seq<Post>, n: nat, stage: Stage, name: Name, payload: seq<Tx>,
                       count: nat)
    requires Unfinished(posts0, count) && AtMostOneMore(posts0, posts, n, stage, name, payload)
    requires posts != posts0 && LastOk(posts) ==> stage.Rpc? && stage.txIndex + 1 < count
    ensures Unfinished(posts, count)
  {
    forall i | 0 <= i < |posts| ensures UnfinishedAt(posts, i, count) {
      assert i < |posts0| ==> UnfinishedAt(posts0, i, count);
    }
  }

  lemma UnfinishedSnoc(posts: seq<Post>, n: nat)
    requires FinishedBy(posts, n) && posts[|posts| - 1].stage.Rpc? && posts[|posts| - 1].stage.txIndex + 1 < n
    ensures Unfinished(posts, n)
  {
    forall i | 0 <= i < |posts| ensures UnfinishedAt(posts, i, n) {
      assert i < |posts| - 1 ==> UnfinishedAt(posts[..|posts| - 1], i, n);
    }
  }

  /** `posts` ends with the acceptance that finished the submission, and nothing before it did. */
  ghost predicate FinishedBy(posts: seq<Post>, n: nat)
  {
    LastOk(posts) && Unfinished(posts[..|posts| - 1], n)
  }

  lemma FinishStep(posts0: seq<Post>, posts: seq<Post>, n: nat, stage: Stage, name: Name, payload: seq<Tx>, count: nat)
    requires Unfinished(posts0, count) && AtMostOneMore(posts0, posts, n, stage, name, payload)
    ensures posts != posts0 && LastOk(posts) ==> FinishedBy(posts, count)
    ensures posts == posts0 || !LastOk(posts) ==> Unfinished(posts, count)
  {
    if posts == posts0 || !LastOk(posts) {
      UnfinishedStep(posts0, posts, n, stage, name, payload, count);
    } else {
      assert posts[..|posts| - 1] == posts0;
    }
  }

  // A submission under way

  /** Nothing has finished the submission yet, and its n-th attempt is the one at `next`. */
  ghost predicate Standing(b: Bundle, posts: seq<Post>, n: nat, next: Stage)
  {
    Shape(b, posts) && Before(posts, next) && Unfinished(posts, |b.txs|) && Timed(b, posts, n, next)
  }

  /** The private part of a submission is over after n - 1 attempts: finished by its last post, or not
      at all. */
  ghost predicate Ended(b: Bundle, posts: seq<Post>, n: nat, sent: bool)
  {
    && Shape(b, posts) && Before(posts, Public) && n <= Latest(b, Public)
    && if sent then FinishedBy(posts, |b.txs|) && posts[|posts| - 1].at + 1 == n else Unfinished(posts, |b.txs|)
  }

  /** The n-th attempt is the one to send transaction `x` to the e-th rpc endpoint in round `r`. */
  ghost predicate Waiting(b: Bundle, posts: seq<Post>, n: nat, r: nat, x: nat, e: nat)
  {
    && r < b.rounds && x < |b.txs| && e <= |b.rpcs| && Standing(b, posts, n, Rpc(r, x, e))
    && RoundComplete(posts, r, x) && !AcceptedIn(posts, r, x)
  }

  /** Transaction `x` has just been accepted in round `r`, in attempt n - 1. */
  ghost predicate Took(b: Bundle, posts: seq<Post>, n: nat, r: nat, x: nat)
  {
    && r < b.rounds && x < |b.txs| && Shape(b, posts) && Before(posts, Rpc(r, x + 1, 0))
    && FinishedBy(posts, |b.txs|) && Timed(b, posts, n, Rpc(r, x + 1, 0))
    && RoundComplete(posts, r, x + 1) && Accepts(posts[|posts| - 1], r, x) && posts[|posts| - 1].at + 1 == n
  }

  lemma StandingStarts(b: Bundle)
    ensures Standing(b, [], 1, Builder(0))
  {
  }

  lemma PartialStays(posts0: seq<Post>, posts: seq<Post>, n: nat, stage: Stage, name: Name, payload: seq<Tx>)
    requires AtMostOneMore(posts0, posts, n, stage, name, payload) && Partial(posts0)
    ensures Partial(posts)
  {
    var r: nat :| AcceptedIn(posts0, r, 0);
    AcceptedStep(posts0, posts, n, stage, name, payload, r, 0);
  }

  /** One attempt at a builder. */
  lemma BuilderStep(b: Bundle, posts0: seq<Post>, posts: seq<Post>, n: nat, e: nat)
    requires Standing(b, posts0, n, Builder(e)) && e < |b.builders|
    requires AtMostOneMore(posts0, posts, n, Builder(e), b.builders[e], b.txs)
    ensures if posts != posts0 && LastOk(posts) then Ended(b, posts, n + 1, true) && posts[|posts| - 1].stage.Builder?
            else Standing(b, posts, n + 1, Builder(e + 1))
  {
    assert TimedAt(b, posts0, n, Builder(e));
    ShapeStep(b, posts0, posts, n, Builder(e), b.builders[e], b.txs);
    FinishStep(posts0, posts, n, Builder(e), b.builders[e], b.txs, |b.txs|);
    BeforeStep(posts0, posts, n, Builder(e), b.builders[e], b.txs, Builder(e + 1));
    BeforeLater(posts, Builder(e + 1), Public);
    if Partial(posts0) { PartialStays(posts0, posts, n, Builder(e), b.builders[e], b.txs); }
  }

  /** The operator gate may stop the builder loop anywhere. */
  lemma BuildersStop(b: Bundle, posts: seq<Post>, n: nat, e: nat)
    requires Standing(b, posts, n, Builder(e)) && e <= |b.builders|
    ensures Ended(b, posts, n, false)
  {
    assert TimedAt(b, posts, n, Builder(e));
    BeforeLater(posts, Builder(e), Public);
  }

  /** After the builders come the rounds. */
  lemma BuildersDone(b: Bundle, posts: seq<Post>, n: nat)
    requires Standing(b, posts, n, Builder(|b.builders|))
    ensures Standing(b, posts, n, Rpc(0, 0, 0))
  {
    assert TimedAt(b, posts, n, Builder(|b.builders|));
    BeforeLater(posts, Builder(|b.builders|), Rpc(0, 0, 0));
  }

  /** One attempt at an rpc endpoint. */
  lemma SendStep(b: Bundle, posts0: seq<Post>, posts: seq<Post>, n: nat, r: nat, x: nat, e: nat)
    requires Waiting(b, posts0, n, r, x, e) && e < |b.rpcs|
    requires AtMostOneMore(posts0, posts, n, Rpc(r, x, e), b.rpcs[e], [b.txs[x]])
    ensures if posts != posts0 && LastOk(posts) then Took(b, posts, n + 1, r, x)
            else Waiting(b, posts, n + 1, r, x, e + 1)
  {
    assert TimedAt(b, posts0, n, Rpc(r, x, e));
    var stage, name, payload := Rpc(r, x, e), b.rpcs[e], [b.txs[x]];
    ShapeStep(b, posts0, posts, n, stage, name, payload);
    RoundStep(posts0, posts, n, stage, name, payload, r, x);
    FinishStep(posts0, posts, n, stage, name, payload, |b.txs|);
    if posts != posts0 && LastOk(posts) {
      BeforeStep(posts0, posts, n, stage, name, payload, Rpc(r, x + 1, 0));
      assert AcceptedIn(posts, r, 0);
    } else {
      BeforeStep(posts0, posts, n, stage, name, payload, Rpc(r, x, e + 1));
      if Partial(posts0) { PartialStays(posts0, posts, n, stage, name, payload); }
    }
  }

  /** A round starts with the first transaction. */
  lemma RoundStarts(b: Bundle, posts: seq<Post>, n: nat, r: nat)
    requires Standing(b, posts, n, Rpc(r, 0, 0)) && r < b.rounds && b.txs != []
    ensures Waiting(b, posts, n, r, 0, 0)
  {
    NotYetAccepted(posts, r, 0);
  }

  /** After an acceptance comes the next transaction. */
  lemma NextTx(b: Bundle, posts: seq<Post>, n: nat, r: nat, x: nat)
    requires Took(b, posts, n, r, x) && x + 1 < |b.txs|
    ensures Waiting(b, posts, n, r, x + 1, 0)
  {
    UnfinishedSnoc(posts, |b.txs|);
    NotYetAccepted(posts, r, x + 1);
  }

  /** The attempts up to the end of a round, wherever in it the submission stands. */
  lemma LatestInRound(b: Bundle, r: nat, x: nat)
    requires r < b.rounds && x < |b.txs|
    ensures Latest(b, Rpc(r, x, |b.rpcs|)) <= Latest(b, Rpc(r + 1, 0, 0)) <= Latest(b, Public)
    ensures Latest(b, Rpc(r, x + 1, 0)) <= Latest(b, Public)
  {
    var each := Turns(|b.txs|, |b.rpcs|);
    TurnsMonotone(x + 1, |b.txs|, |b.rpcs|, |b.rpcs|);
    TurnsMonotone(r + 1, b.rounds, each, each);
    assert Turns(r + 1, each) == each + Turns(r, each);
    assert Turns(x + 1, |b.rpcs|) == |b.rpcs| + Turns(x, |b.rpcs|);
  }

  /** A round that gets stuck hands over to the next one. */
  lemma RoundFails(b: Bundle, posts: seq<Post>, n: nat, r: nat, x: nat)
    requires Waiting(b, posts, n, r, x, |b.rpcs|)
    ensures Standing(b, posts, n, Rpc(r + 1, 0, 0))
  {
    assert TimedAt(b, posts, n, Rpc(r, x, |b.rpcs|));
    LatestInRound(b, r, x);
    BeforeLater(posts, Rpc(r, x, |b.rpcs|), Rpc(r + 1, 0, 0));
  }

  /** The operator gate may stop a round anywhere. */
  lemma RoundStops(b: Bundle, posts: seq<Post>, n: nat, r: nat, x: nat, e: nat)
    requires Waiting(b, posts, n, r, x, e)
    ensures Ended(b, posts, n, false)
  {
    assert TimedAt(b, posts, n, Rpc(r, x, e));
    LatestInRound(b, r, x);
    BeforeLater(posts, Rpc(r, x, e), Public);
  }

  /** The last acceptance of a round finishes the submission. */
  lemma RoundSucceeds(b: Bundle, posts: seq<Post>, n: nat, r: nat)
    requires b.txs != [] && Took(b, posts, n, r, |b.txs| - 1)
    ensures Ended(b, posts, n, true) && RoundComplete(posts, r, |b.txs|)
  {
    assert TimedAt(b, posts, n, Rpc(r, |b.txs|, 0));
    LatestInRound(b, r, |b.txs| - 1);
    BeforeLater(posts, Rpc(r, |b.txs|, 0), Public);
  }

  /** The three ways a round ends. */
  lemma RoundEnds(b: Bundle, posts: seq<Post>, n: nat, r: nat, x: nat)
    requires x < |b.txs|
    ensures Waiting(b, posts, n, r, x, |b.rpcs|) ==> Standing(b, posts, n, Rpc(r + 1, 0, 0))
    ensures x + 1 == |b.txs| && Took(b, posts, n, r, x) ==> Ended(b, posts, n, true) && RoundComplete(posts, r, |b.txs|)
  {
    if Waiting(b, posts, n, r, x, |b.rpcs|) { RoundFails(b, posts, n, r, x); }
    if x + 1 == |b.txs| && Took(b, posts, n, r, x) { RoundSucceeds(b, posts, n, r); }
  }

  /** After the last round comes the public endpoint. */
  lemma RoundsDone(b: Bundle, posts: seq<Post>, n: nat)
    requires Standing(b, posts, n, Rpc(b.rounds, 0, 0))
    ensures Standing(b, posts, n, Public)
  {
    assert TimedAt(b, posts, n, Rpc(b.rounds, 0, 0));
    BeforeLater(posts, Rpc(b.rounds, 0, 0), Public);
  }

  /** Without rpc endpoints there are no rounds to speak of. */
  lemma NoRounds(b: Bundle, posts: seq<Post>, n: nat)
    requires Standing(b, posts, n, Rpc(0, 0, 0)) && b.rpcs == []
    ensures Standing(b, posts, n, Public)
  {
    assert TimedAt(b, posts, n, Rpc(0, 0, 0));
    TurnsProduct(b.rounds, 0);
    TurnsProduct(|b.txs|, 0);
    BeforeLater(posts, Rpc(0, 0, 0), Public);
  }

  /** The attempts made when only the public endpoint is left. */
  lemma PublicTurn(b: Bundle, posts: seq<Post>, n: nat)
    requires Standing(b, posts, n, Public)
    ensures Ended(b, posts, n, false) && Earliest(b, Public) <= n && (Partial(posts) || n == Earliest(b, Public))
  {
    assert TimedAt(b, posts, n, Public);
  }

  /** The attempt at the public endpoint. */
  lemma PublicStep(b: Bundle, posts0: seq<Post>, posts: seq<Post>, n: nat)
    requires Standing(b, posts0, n, Public) && b.txs != []
    requires AtMostOneMore(posts0, posts, n, Public, PublicFallback, [b.txs[0]])
    ensures Shape(b, posts) && (Partial(posts0) ==> Partial(posts))
    ensures if posts != posts0 && LastOk(posts) then FinishedBy(posts, |b.txs|) else Unfinished(posts, |b.txs|)
  {
    ShapeStep(b, posts0, posts, n, Public, PublicFallback, [b.txs[0]]);
    FinishStep(posts0, posts, n, Public, PublicFallback, [b.txs[0]], |b.txs|);
    if Partial(posts0) { PartialStays(posts0, posts, n, Public, PublicFallback, [b.txs[0]]); }
  }

  /** All transactions of the bundle went out: together in one accepted post, or one by one in a
      round of accepted posts. */
  ghost predicate AllSent(b: Bundle, posts: seq<Post>)
  {
    || (exists r: nat :: RoundComplete(posts, r, |b.txs|))
    || (exists i :: 0 <= i < |posts| && posts[i].Ok() && posts[i].payload == b.txs)
  }

  ghost predicate NoRoundAccepts(p: Post, x: nat)
  {
    forall r: nat :: !Accepts(p, r, x)
  }

  /** A finished submission has sent everything, except when the public fallback, whose request
      carries the first transaction only, finishes a bundle of two or more. */
  lemma FinishedSendsAllIff(b: Bundle, posts: seq<Post>)
    requires b.txs != [] && Shape(b, posts) && FinishedBy(posts, |b.txs|)
    requires var p := posts[|posts| - 1]; p.stage.Rpc? ==> RoundComplete(posts, p.stage.round, |b.txs|)
    ensures AllSent(b, posts) <==> posts[|posts| - 1].stage.Public? ==> |b.txs| == 1
  {
    var k := |posts| - 1;
    var p := posts[k];
    assert ShapeAt(b, posts, k);
    if p.stage.Public? && |b.txs| != 1 {
      forall i | 0 <= i < |posts| && posts[i].Ok()
        ensures posts[i].payload != b.txs && NoRoundAccepts(posts[i], |b.txs| - 1)
      {
        assert ShapeAt(b, posts, i);
        if i < k { assert UnfinishedAt(posts[..k], i, |b.txs|); }
      }
      forall r: nat ensures !RoundComplete(posts, r, |b.txs|) {
        forall i | 0 <= i < |posts| ensures !Accepts(posts[i], r, |b.txs| - 1) {
          assert posts[i].Ok() ==> NoRoundAccepts(posts[i], |b.txs| - 1);
        }
        assert !AcceptedIn(posts, r, |b.txs| - 1);
      }
    } else if p.stage.Public? {
      assert b.txs == [b.txs[0]];
    }
  }
}
