/** The in-process engine and the bridge to an external job run a pointwise query
    alike. */
module Engines {
  import opened Records
  import opened Wrappers
  import opened MeosEngine
  import B = Bridge

  /** Over one source, a transform in process and one on the bridge emit nothing but
      the transform of the source's first records, however each is cut short. */
  lemma BothAreTransforms(steps: seq<B.Step>, env: B.Setting, source: seq<Instant>, results: seq<Event>, status: Status,
                          lift: real -> Option<real>, accept: nat -> bool)
    requires B.Legal(steps, env) && B.Run(steps, env).fed <= source
    requires TransformRun(results, status, source, lift, accept) && Lifts(lift, env.f)
    ensures results <= Transformed(source, env.f)
    ensures B.Emitted(B.Run(steps, env)) <= Transformed(source, env.f)
  {
    LiftedIsTransform(results, source, lift, accept);
    B.EventsArePaired(steps, env);
    hide B.Run, B.Legal, B.Emitted, Lifts, TransformRun;
    var fed := B.Run(steps, env).fed;
    assert Transformed(fed, env.f) <= Transformed(source, env.f);
  }

  /** Runs over one source that go to its end emit the same events. */
  lemma EnginesAgree(steps: seq<B.Step>, env: B.Setting, results: seq<Event>, status: Status,
                     lift: real -> Option<real>, accept: nat -> bool)
    requires B.Legal(steps, env)
    requires var s := B.Run(steps, env); s.reader.ReaderDone? && !s.cancelled && !s.crashed
    requires TransformRun(results, status, B.Run(steps, env).fed, lift, accept) && Lifts(lift, env.f)
    requires |results| == |B.Run(steps, env).fed|
    ensures results == B.Emitted(B.Run(steps, env))
  {
    var source := B.Run(steps, env).fed;
    B.EndsComplete(steps, env);
    LiftedIsTransform(results, source, lift, accept);
    assert source[..|results|] == source;
  }
}
