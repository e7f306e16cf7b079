/** Detecting Sentinels that disagree about the master while their config-epochs cannot settle it. */
module EpochTrap {
  import opened Text
  import opened Endpoint

  /** What one Sentinel answers: its advertised address, and the text of its config-epoch. */
  datatype SentinelAnswer = SentinelAnswer(ad: Option<Target>, epoch: Option<string>)

  /** An advertised address and its epoch; a negative epoch is unknown. */
  datatype Sample = Sample(ad: string, epoch: int)

  datatype Report = Report(trap: bool, epochs: seq<int>, ads: seq<string>, sampleSize: nat)

  /** A peer as listed by the first Sentinel. */
  datatype Peer = Peer(ip: string, port: string)

  function EpochOf(text: Option<string>): int {
    if text.Some? && Atoi(text.value).Some? then Atoi(text.value).value else -1
  }

  function SampleOf(a: SentinelAnswer): Option<Sample> {
    if a.ad.None? || a.ad.value.ip == "" then None
    else Some(Sample(Printed(a.ad.value.ip, a.ad.value.port), EpochOf(a.epoch)))
  }

  /** The addresses that are worth dialing, in order. */
  function PeerAddrs(peers: seq<Peer>): seq<string> {
    if peers == [] then []
    else
      var p := peers[|peers| - 1];
      PeerAddrs(peers[..|peers| - 1]) + if p.ip == "" || p.port == "" then [] else [p.ip + ":" + p.port]
  }

  function Lowered(addrs: seq<string>): set<string> { set a | a in addrs :: ToLower(a) }

  /** The addresses actually sampled: the first of each, ignoring case. */
  function Asked(addrs: seq<string>): seq<string> {
    if addrs == [] then []
    else
      var rest, a := addrs[..|addrs| - 1], addrs[|addrs| - 1];
      Asked(rest) + if ToLower(a) in Lowered(rest) then [] else [a]
  }

  function SamplesOf(ask: string -> SentinelAnswer, addrs: seq<string>): seq<Sample> {
    if addrs == [] then []
    else
      var s := SampleOf(ask(addrs[|addrs| - 1]));
      SamplesOf(ask, addrs[..|addrs| - 1]) + if s.None? then [] else [s.value]
  }

  /** Two ads differ, and no two known epochs do. */
  ghost predicate Trapped(samples: seq<Sample>) {
    && (exists s, t :: s in samples && t in samples && !EqualFold(s.ad, t.ad))
    && (forall s, t :: s in samples && t in samples && s.epoch >= 0 && t.epoch >= 0 ==> s.epoch == t.epoch)
  }

  lemma {:induction false} AskedCoversOnce(addrs: seq<string>)
    ensures Lowered(Asked(addrs)) == Lowered(addrs)
    ensures forall a :: a in Asked(addrs) ==> a in addrs
    ensures forall i, j :: 0 <= i < j < |Asked(addrs)| ==> !EqualFold(Asked(addrs)[i], Asked(addrs)[j])
  {
    if addrs != [] {
      var rest, a := addrs[..|addrs| - 1], addrs[|addrs| - 1];
      AskedCoversOnce(rest);
      assert addrs == rest + [a];
      assert Lowered(addrs) == Lowered(rest) + {ToLower(a)};
      assert Lowered(Asked(rest) + [a]) == Lowered(Asked(rest)) + {ToLower(a)};
      if ToLower(a) !in Lowered(rest) {
        forall i | 0 <= i < |Asked(rest)| ensures !EqualFold(Asked(rest)[i], a) {
          assert ToLower(Asked(rest)[i]) in Lowered(Asked(rest));
        }
      }
    }
  }

  lemma TwoMembers<T>(s: set<T>)
    ensures |s| >= 2 <==> exists a, b :: a in s && b in s && a != b
  {
    if |s| >= 2 {
      var a :| a in s;
      assert |s - {a}| >= 1;
      var b :| b in s - {a};
      assert a in s && b in s && a != b;
    }
    if a, b :| a in s && b in s && a != b {
      assert s == {a, b} + (s - {a, b});
      assert |{a, b}| == 2;
    }
  }

  ghost function AdSet(samples: seq<Sample>): set<string> { set s | s in samples :: ToLower(s.ad) }

  ghost function EpochSet(samples: seq<Sample>): set<int> { set s | s in samples && s.epoch >= 0 :: s.epoch }

  lemma TrapBySets(samples: seq<Sample>)
    ensures |AdSet(samples)| >= 2 && |EpochSet(samples)| <= 1 <==> Trapped(samples)
  {
    var ads, epochs := AdSet(samples), EpochSet(samples);
    TwoMembers(ads);
    TwoMembers(epochs);
    if a, b :| a in ads && b in ads && a != b {
      var s :| s in samples && ToLower(s.ad) == a;
      var t :| t in samples && ToLower(t.ad) == b;
      assert !EqualFold(s.ad, t.ad);
    }
    if s, t :| s in samples && t in samples && !EqualFold(s.ad, t.ad) {
      assert ToLower(s.ad) in ads && ToLower(t.ad) in ads;
    }
    if s, t :| s in samples && t in samples && s.epoch >= 0 && t.epoch >= 0 && s.epoch != t.epoch {
      assert s.epoch in epochs && t.epoch in epochs;
    }
  }

  /** The epochs that are known, in the order of the samples. */
  function KnownEpochs(samples: seq<Sample>): seq<int> {
    if samples == [] then []
    else
      var e := samples[|samples| - 1].epoch;
      KnownEpochs(samples[..|samples| - 1]) + if e >= 0 then [e] else []
  }

  /** The epochs reported are those of the samples, but for the unknown ones. */
  lemma {:induction false} KnownEpochsAre(samples: seq<Sample>)
    ensures forall n :: n in KnownEpochs(samples) <==> n >= 0 && exists s | s in samples :: s.epoch == n
  {
    if samples != [] {
      var rest, s := samples[..|samples| - 1], samples[|samples| - 1];
      KnownEpochsAre(rest);
      assert samples == rest + [s];
    }
  }

  lemma LoweredAppend(xs: seq<string>, a: string)
    ensures Lowered(xs + [a]) == Lowered(xs) + {ToLower(a)}
  {}

  lemma AskedAppend(xs: seq<string>, a: string)
    ensures Asked(xs + [a]) == Asked(xs) + if ToLower(a) in Lowered(xs) then [] else [a]
  {
    assert (xs + [a])[..|xs|] == xs;
  }

  lemma SamplesAppend(ask: string -> SentinelAnswer, xs: seq<string>, a: string)
    ensures SamplesOf(ask, xs + [a])
         == SamplesOf(ask, xs) + if SampleOf(ask(a)).None? then [] else [SampleOf(ask(a)).value]
  {
    assert (xs + [a])[..|xs|] == xs;
  }

  /** Sample one Sentinel unless its address was seen, ignoring case. */
  method Add(ghost before: seq<string>, addr: string, ask: string -> SentinelAnswer,
             samples: seq<Sample>, seen: set<string>) returns (samples': seq<Sample>, seen': set<string>)
    requires seen == Lowered(before) && samples == SamplesOf(ask, Asked(before))
    ensures seen' == Lowered(before + [addr]) && samples' == SamplesOf(ask, Asked(before + [addr]))
  {
    var key := ToLower(addr);
    LoweredAppend(before, addr);
    AskedAppend(before, addr);
    SamplesAppend(ask, Asked(before), addr);
    samples', seen' := samples, seen + {key};
    if key in seen {
      assert Asked(before) + [] == Asked(before);
      return;
    }
    var s := SampleOf(ask(addr));
    if s.Some? { samples' := samples + [s.value]; }
  }

  lemma TakeOneMore(before: seq<string>, addrs: seq<string>, i: nat)
    requires i < |addrs|
    ensures before + addrs[..i] + [addrs[i]] == before + addrs[..i + 1]
  {}

  method SampleAll(addrs: seq<string>, ask: string -> SentinelAnswer, ghost before: seq<string>,
                   samples: seq<Sample>, seen: set<string>) returns (samples': seq<Sample>, seen': set<string>)
    requires seen == Lowered(before) && samples == SamplesOf(ask, Asked(before))
    ensures seen' == Lowered(before + addrs) && samples' == SamplesOf(ask, Asked(before + addrs))
  {
    samples', seen' := samples, seen;
    ghost var done := before;
    for i := 0 to |addrs|
      invariant done == before + addrs[..i]
      invariant seen' == Lowered(done) && samples' == SamplesOf(ask, Asked(done))
    {
      samples', seen' := Add(done, addrs[i], ask, samples', seen');
      TakeOneMore(before, addrs, i);
      done := done + [addrs[i]];
    }
    assert addrs[..|addrs|] == addrs;
  }

  method DialablePeers(peers: seq<Peer>) returns (addrs: seq<string>)
    ensures addrs == PeerAddrs(peers)
  {
    addrs := [];
    for i := 0 to |peers|
      invariant addrs == PeerAddrs(peers[..i])
    {
      var p := peers[i];
      assert peers[..i + 1][..i] == peers[..i];
      if p.ip == "" || p.port == "" { continue; }
      addrs := addrs + [p.ip + ":" + p.port];
    }
    assert peers[..|peers|] == peers;
  }

  /** The addresses to sample: the configured Sentinels, and then the peers the first of them lists. */
  function Candidates(clients: seq<string>, peers: seq<Peer>): seq<string> {
    if clients == [] then [] else clients + PeerAddrs(peers)
  }

  /** The configured Sentinels, and then the peers the first of them lists, each sampled once. */
  method CollectSamples(clients: seq<string>, peers: seq<Peer>, ask: string -> SentinelAnswer)
    returns (samples: seq<Sample>)
    ensures samples == SamplesOf(ask, Asked(Candidates(clients, peers)))
  {
    var seen: set<string> := {};
    ghost var none: seq<string> := [];
    samples, seen := SampleAll(clients, ask, none, [], seen);
    assert none + clients == clients;
    if |clients| > 0 {
      var addrs := DialablePeers(peers);
      samples, seen := SampleAll(addrs, ask, clients, samples, seen);
    }
  }

  function AdsOf(samples: seq<Sample>): seq<string> {
    seq(|samples|, i requires 0 <= i < |samples| => samples[i].ad)
  }

  lemma OneMoreSample(samples: seq<Sample>, i: nat)
    requires i < |samples|
    ensures AdsOf(samples[..i + 1]) == AdsOf(samples[..i]) + [samples[i].ad]
    ensures KnownEpochs(samples[..i + 1])
         == KnownEpochs(samples[..i]) + if samples[i].epoch >= 0 then [samples[i].epoch] else []
    ensures AdSet(samples[..i + 1]) == AdSet(samples[..i]) + {ToLower(samples[i].ad)}
    ensures EpochSet(samples[..i + 1])
         == EpochSet(samples[..i]) + if samples[i].epoch >= 0 then {samples[i].epoch} else {}
  {
    assert samples[..i + 1] == samples[..i] + [samples[i]];
    assert samples[..i + 1][..i] == samples[..i];
  }

  method ReportOn(samples: seq<Sample>) returns (rep: Report)
    ensures rep.trap <==> Trapped(samples)
    ensures rep == Report(rep.trap, KnownEpochs(samples), AdsOf(samples), |samples|)
  {
    var ads: set<string> := {};
    var epochs: set<int> := {};
    rep := Report(false, [], [], |samples|);
    for i := 0 to |samples|
      invariant rep == Report(false, KnownEpochs(samples[..i]), AdsOf(samples[..i]), |samples|)
      invariant ads == AdSet(samples[..i]) && epochs == EpochSet(samples[..i])
    {
      var s := samples[i];
      OneMoreSample(samples, i);
      rep := rep.(ads := rep.ads + [s.ad]);
      ads := ads + {ToLower(s.ad)};
      if s.epoch >= 0 {
        rep := rep.(epochs := rep.epochs + [s.epoch]);
        epochs := epochs + {s.epoch};
      }
    }
    assert samples[..|samples|] == samples;
    TrapBySets(samples);
    if |ads| >= 2 && |epochs| <= 1 { rep := rep.(trap := true); }
  }

  /** A trap is reported exactly when two sampled ads differ and no two known epochs do. */
  method DetectEqualEpochTrap(clients: seq<string>, peers: seq<Peer>, ask: string -> SentinelAnswer)
    returns (rep: Report)
    ensures var samples := SamplesOf(ask, Asked(Candidates(clients, peers)));
            && (rep.trap <==> Trapped(samples))
            && rep == Report(rep.trap, KnownEpochs(samples), AdsOf(samples), |samples|)
  {
    var samples := CollectSamples(clients, peers, ask);
    rep := ReportOn(samples);
  }

  /** The order of the samples does not matter, and a further Sentinel whose epoch is unknown
      never clears a trap. */
  lemma TrapIsStable(xs: seq<Sample>, ys: seq<Sample>, extra: Sample)
    requires forall s :: s in xs <==> s in ys
    ensures Trapped(xs) <==> Trapped(ys)
    ensures Trapped(xs) && extra.epoch < 0 ==> Trapped(ys + [extra])
  {
    if Trapped(xs) {
      var s, t :| s in xs && t in xs && !EqualFold(s.ad, t.ad);
      assert s in ys + [extra] && t in ys + [extra];
    }
  }

  /** An epoch counts when its text is a number that is not negative, and as that number. */
  predicate Reads(text: Option<string>, n: nat) { text.Some? && Atoi(text.value) == Some(n) }

  lemma EpochOfReads(text: Option<string>, n: nat)
    ensures EpochOf(text) == n <==> Reads(text, n)
  {}

  lemma EpochsAreRead(n: nat)
    requires n <= INT64_MAX
    ensures EpochOf(Some(Itoa(n))) == n && EpochOf(None) < 0
  {
    ItoaRoundTrip(n);
  }

  /** A Sentinel is sampled that answers with a master, and its sample is what it answered. */
  predicate Answers(a: SentinelAnswer, ad: string) {
    a.ad.Some? && a.ad.value.ip != "" && ad == a.ad.value.ip + ":" + Itoa(a.ad.value.port)
  }

  lemma {:induction false} SamplesAre(ask: string -> SentinelAnswer, addrs: seq<string>)
    ensures forall s :: s in SamplesOf(ask, addrs) <==>
              exists a | a in addrs :: Answers(ask(a), s.ad) && s.epoch == EpochOf(ask(a).epoch)
  {
    if addrs != [] {
      var rest, a := addrs[..|addrs| - 1], addrs[|addrs| - 1];
      SamplesAre(ask, rest);
      assert addrs == rest + [a];
      assert forall b :: b in addrs <==> b in rest || b == a;
    }
  }

  /** Two of the Sentinels name masters that differ by more than case. */
  ghost predicate Disagree(ask: string -> SentinelAnswer, addrs: seq<string>) {
    exists a, b, x, y ::
      a in addrs && b in addrs && Answers(ask(a), x) && Answers(ask(b), y) && !EqualFold(x, y)
  }

  /** Sentinel a names a master, and its epoch reads as n. */
  ghost predicate ReadsAt(ask: string -> SentinelAnswer, addrs: seq<string>, a: string, n: nat) {
    a in addrs && (exists x :: Answers(ask(a), x)) && Reads(ask(a).epoch, n)
  }

  /** No two of the Sentinels that name a master have epochs that read as different numbers. */
  ghost predicate OneEpoch(ask: string -> SentinelAnswer, addrs: seq<string>) {
    forall a, b, m, n :: ReadsAt(ask, addrs, a, m) && ReadsAt(ask, addrs, b, n) ==> m == n
  }

  lemma AnswerIsSampled(ask: string -> SentinelAnswer, addrs: seq<string>, a: string, x: string)
    requires a in addrs && Answers(ask(a), x)
    ensures Sample(x, EpochOf(ask(a).epoch)) in SamplesOf(ask, addrs)
  {
    SamplesAre(ask, addrs);
  }

  lemma SampleIsAnswered(ask: string -> SentinelAnswer, addrs: seq<string>, s: Sample) returns (a: string)
    requires s in SamplesOf(ask, addrs)
    ensures a in addrs && Answers(ask(a), s.ad) && s.epoch == EpochOf(ask(a).epoch)
  {
    SamplesAre(ask, addrs);
    a :| a in addrs && Answers(ask(a), s.ad) && s.epoch == EpochOf(ask(a).epoch);
  }

  lemma DisagreeIff(ask: string -> SentinelAnswer, addrs: seq<string>)
    ensures Disagree(ask, addrs) <==>
            exists s, t :: s in SamplesOf(ask, addrs) && t in SamplesOf(ask, addrs) && !EqualFold(s.ad, t.ad)
  {
    var samples := SamplesOf(ask, addrs);
    if s, t :| s in samples && t in samples && !EqualFold(s.ad, t.ad) {
      var a := SampleIsAnswered(ask, addrs, s);
      var b := SampleIsAnswered(ask, addrs, t);
    }
    if a, b, x, y :| a in addrs && b in addrs && Answers(ask(a), x) && Answers(ask(b), y) && !EqualFold(x, y) {
      AnswerIsSampled(ask, addrs, a, x);
      AnswerIsSampled(ask, addrs, b, y);
    }
  }

  lemma SampledEpoch(ask: string -> SentinelAnswer, addrs: seq<string>, n: nat)
    ensures (exists s :: s in SamplesOf(ask, addrs) && s.epoch == n) <==> exists a :: ReadsAt(ask, addrs, a, n)
  {
    SamplesAre(ask, addrs);
    if s :| s in SamplesOf(ask, addrs) && s.epoch == n {
      var a :| a in addrs && Answers(ask(a), s.ad) && s.epoch == EpochOf(ask(a).epoch);
      EpochOfReads(ask(a).epoch, n);
      assert ReadsAt(ask, addrs, a, n);
    }
    if a :| ReadsAt(ask, addrs, a, n) {
      var x :| Answers(ask(a), x);
      assert Sample(x, n) in SamplesOf(ask, addrs);
    }
  }

  lemma OneEpochIff(ask: string -> SentinelAnswer, addrs: seq<string>)
    ensures OneEpoch(ask, addrs) <==>
            forall s, t :: s in SamplesOf(ask, addrs) && t in SamplesOf(ask, addrs) && s.epoch >= 0 && t.epoch >= 0 ==>
              s.epoch == t.epoch
  {
    var samples := SamplesOf(ask, addrs);
    if OneEpoch(ask, addrs) {
      forall s, t | s in samples && t in samples && s.epoch >= 0 && t.epoch >= 0 ensures s.epoch == t.epoch {
        SampledEpoch(ask, addrs, s.epoch);
        SampledEpoch(ask, addrs, t.epoch);
        var a :| ReadsAt(ask, addrs, a, s.epoch);
        var b :| ReadsAt(ask, addrs, b, t.epoch);
      }
    }
    if a, b, m, n :| ReadsAt(ask, addrs, a, m) && ReadsAt(ask, addrs, b, n) && m != n {
      SampledEpoch(ask, addrs, m);
      SampledEpoch(ask, addrs, n);
    }
  }

  /** A trap, said of the answers: two Sentinels disagree, and the epochs that can be read are one. */
  lemma TrapOfAnswers(ask: string -> SentinelAnswer, addrs: seq<string>)
    ensures Trapped(SamplesOf(ask, addrs)) <==> Disagree(ask, addrs) && OneEpoch(ask, addrs)
  {
    DisagreeIff(ask, addrs);
    OneEpochIff(ask, addrs);
  }

  /** The peers that are dialed are those with an ip and a port, in the order of the list. */
  lemma {:induction false} PeersDialed(peers: seq<Peer>)
    ensures forall a :: a in PeerAddrs(peers) <==>
              exists p | p in peers :: p.ip != "" && p.port != "" && a == p.ip + ":" + p.port
  {
    if peers != [] {
      var rest, p := peers[..|peers| - 1], peers[|peers| - 1];
      PeersDialed(rest);
      assert peers == rest + [p];
    }
  }
}
