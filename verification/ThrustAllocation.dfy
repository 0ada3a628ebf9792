/** The allocation step over all thrusters (thrustallocation.h), with the solver left open. */
module ThrustAllocations {
  import opened Reals
  import opened Thrusters

  /** The real-time data of the controller: one entry for each thruster in every vector. */
  class RtData {
    var feedbackRotation: seq<int>
    var feedbackU: seq<real>
    var feedbackAlpha: seq<real>
    var feedbackAlphaDeg: seq<int>
    var commandRotation: seq<int>
    var commandU: seq<real>
    var commandAlpha: seq<real>
    var commandAlphaDeg: seq<int>

    predicate Sized(m: nat)
      reads this
    {
      |feedbackRotation| == |feedbackU| == |feedbackAlpha| == |feedbackAlphaDeg| == m &&
      |commandRotation| == |commandU| == |commandAlpha| == |commandAlphaDeg| == m
    }

    function Feedback(i: nat): Drive
      requires i < |feedbackRotation| && i < |feedbackAlphaDeg|
      reads this
    {
      Drive(feedbackRotation[i], feedbackAlphaDeg[i])
    }

    function Command(i: nat): Drive
      requires i < |commandRotation| && i < |commandAlphaDeg|
      reads this
    {
      Drive(commandRotation[i], commandAlphaDeg[i])
    }
  }

  /** The thrust wanted of each twin: together they give the surge force and the yaw moment. */
  function TwinDemand(l: int, ly0: real, ly1: real, fx: real, mz: real): real
    requires ly0 != ly1
  {
    var deltaL := 1.0 / (ly1 - ly0);
    if l == 0 then (mz + fx * ly1) * deltaL else -(mz + fx * ly0) * deltaL
  }

  lemma TwinDemandBalances(ly0: real, ly1: real, fx: real, mz: real)
    requires ly0 != ly1
    ensures TwinDemand(0, ly0, ly1, fx, mz) + TwinDemand(1, ly0, ly1, fx, mz) == fx
    ensures -ly0 * TwinDemand(0, ly0, ly1, fx, mz) - ly1 * TwinDemand(1, ly0, ly1, fx, mz) == mz
  {
    var d, e := ly1 - ly0, 1.0 / (ly1 - ly0);
    assert e * d == 1.0;
    calc {
      TwinDemand(0, ly0, ly1, fx, mz) + TwinDemand(1, ly0, ly1, fx, mz);
      fx * (e * d);
      fx;
    }
    calc {
      -ly0 * TwinDemand(0, ly0, ly1, fx, mz) - ly1 * TwinDemand(1, ly0, ly1, fx, mz);
      mz * (e * d);
      mz;
    }
  }

  lemma Scaled(x: real, d: real, e: real)
    requires e * d == 1.0
    ensures (x * d) * e == x
  {
    assert (x * d) * e == x * (e * d);
  }

  /** No other pair of thrusts does. */
  lemma OnlyBalance(ly0: real, ly1: real, fx: real, mz: real, t0: real, t1: real)
    requires ly0 != ly1 && t0 + t1 == fx && -ly0 * t0 - ly1 * t1 == mz
    ensures t0 == TwinDemand(0, ly0, ly1, fx, mz) && t1 == TwinDemand(1, ly0, ly1, fx, mz)
  {
    var d, e := ly1 - ly0, 1.0 / (ly1 - ly0);
    assert e * d == 1.0;
    assert mz + fx * ly1 == t0 * d;
    assert -(mz + fx * ly0) == t1 * d;
    Scaled(t0, d, e);
    Scaled(t1, d, e);
  }

  class ThrustAllocation {
    const tunnels: seq<Thruster>
    const azimuths: seq<Thruster>
    const numMainRudder: nat
    const twinFixed: seq<Thruster>
    const pi: real

    var lowerDeltaU: seq<real>
    var upperDeltaU: seq<real>
    var lowerDeltaAlpha: seq<real>
    var upperDeltaAlpha: seq<real>

    /** The first indices of the azimuth, rudder and twin fixed thrusters, and the number of thrusters. */
    function A(): nat { |tunnels| }
    function R(): nat { A() + |azimuths| }
    function T(): nat { R() + numMainRudder }
    function M(): nat { T() + |twinFixed| }

    ghost predicate Configured() {
      0.0 < pi &&
      (forall i :: 0 <= i < |tunnels| ==> tunnels[i].Tunnel? && WellConfigured(tunnels[i])) &&
      (forall j :: 0 <= j < |azimuths| ==> azimuths[j].Azimuth? && WellConfigured(azimuths[j])) &&
      (forall l :: 0 <= l < |twinFixed| ==> twinFixed[l].TwinFixed? && WellConfigured(twinFixed[l])) &&
      (|twinFixed| == 0 || (|twinFixed| == 2 && twinFixed[0].ly != twinFixed[1].ly))
    }

    predicate Sized()
      reads this
    {
      |lowerDeltaU| == |upperDeltaU| == |lowerDeltaAlpha| == |upperDeltaAlpha| == M()
    }

    /** Thrusters other than those with a rudder. */
    predicate Modelled(i: int) {
      0 <= i < R() || T() <= i < M()
    }

    function ThrusterAt(i: int): (t: Thruster)
      requires Modelled(i)
      ensures Configured() ==> WellConfigured(t)
    {
      if i < A() then tunnels[i] else if i < R() then azimuths[i - A()] else twinFixed[i - T()]
    }

    /** The demand that decides the direction of a thruster. */
    function Desired(i: int, fx: real, mz: real): real
      requires Modelled(i) && Configured()
    {
      if i < A() then mz
      else if i < R() then 0.0
      else TwinDemand(i - T(), twinFixed[0].ly, twinFixed[1].ly, fx, mz)
    }

    function BoundsAt(i: int): Bounds
      requires Sized() && Modelled(i)
      reads this
    {
      Bounds(lowerDeltaU[i], upperDeltaU[i], lowerDeltaAlpha[i], upperDeltaAlpha[i])
    }

    constructor (tunnels: seq<Thruster>, azimuths: seq<Thruster>, numMainRudder: nat, twinFixed: seq<Thruster>,
                 pi: real)
      ensures this.tunnels == tunnels && this.azimuths == azimuths && this.numMainRudder == numMainRudder
      ensures this.twinFixed == twinFixed && this.pi == pi && Sized()
    {
      this.tunnels := tunnels;
      this.azimuths := azimuths;
      this.numMainRudder := numMainRudder;
      this.twinFixed := twinFixed;
      this.pi := pi;
      var m := |tunnels| + |azimuths| + numMainRudder + |twinFixed|;
      lowerDeltaU, upperDeltaU := seq(m, i => 0.0), seq(m, i => 0.0);
      lowerDeltaAlpha, upperDeltaAlpha := seq(m, i => 0.0), seq(m, i => 0.0);
    }

    // ----- The previous command as feedback -----

    method ConvertAlphaInt2Radian(rt: RtData)
      requires Configured() && rt.Sized(M())
      modifies rt`feedbackAlpha
      ensures rt.Sized(M())
      ensures forall i :: Modelled(i) ==> rt.feedbackAlpha[i] == Degree2Rad(rt.feedbackAlphaDeg[i], pi)
      ensures forall i :: R() <= i < T() ==> rt.feedbackAlpha[i] == old(rt.feedbackAlpha)[i]
    {
      var i := 0;
      while i < R()
        invariant 0 <= i <= R() && rt.Sized(M())
        invariant forall k :: 0 <= k < i ==> rt.feedbackAlpha[k] == Degree2Rad(rt.feedbackAlphaDeg[k], pi)
        invariant forall k :: R() <= k < M() ==> rt.feedbackAlpha[k] == old(rt.feedbackAlpha)[k]
      {
        rt.feedbackAlpha := rt.feedbackAlpha[i := Degree2Rad(rt.feedbackAlphaDeg[i], pi)];
        i := i + 1;
      }
      var l := 0;
      while l < |twinFixed|
        invariant 0 <= l <= |twinFixed| && rt.Sized(M())
        invariant forall k :: 0 <= k < R() || T() <= k < T() + l ==>
          rt.feedbackAlpha[k] == Degree2Rad(rt.feedbackAlphaDeg[k], pi)
        invariant forall k :: R() <= k < T() ==> rt.feedbackAlpha[k] == old(rt.feedbackAlpha)[k]
      {
        rt.feedbackAlpha := rt.feedbackAlpha[T() + l := Degree2Rad(rt.feedbackAlphaDeg[T() + l], pi)];
        l := l + 1;
      }
    }

    /** Thruster `i` has been read: its rotation normalised, its thrust computed. */
    ghost predicate Read(i: int, n: int, n': int, u': real) {
      Modelled(i) && n' == FeedbackRotation(ThrusterAt(i), n) && u' == FeedbackThrust(ThrusterAt(i), n')
    }

    method ReadOne(rt: RtData, index: nat, t: Thruster)
      requires rt.Sized(M()) && Modelled(index) && t == ThrusterAt(index)
      modifies rt`feedbackRotation, rt`feedbackU
      ensures rt.Sized(M())
      ensures Read(index, old(rt.feedbackRotation)[index], rt.feedbackRotation[index], rt.feedbackU[index])
      ensures forall k :: 0 <= k < M() && k != index ==>
        rt.feedbackRotation[k] == old(rt.feedbackRotation)[k] && rt.feedbackU[k] == old(rt.feedbackU)[k]
    {
      hide FeedbackRotation, FeedbackThrust;
      var n := FeedbackRotation(t, rt.feedbackRotation[index]);
      var u := FeedbackThrust(t, n);
      rt.feedbackRotation, rt.feedbackU := rt.feedbackRotation[index := n], rt.feedbackU[index := u];
    }

    method CalculateU(rt: RtData)
      requires Configured() && rt.Sized(M())
      modifies rt`feedbackRotation, rt`feedbackU
      ensures rt.Sized(M())
      ensures forall i :: Modelled(i) ==> Read(i, old(rt.feedbackRotation)[i], rt.feedbackRotation[i], rt.feedbackU[i])
      ensures forall i :: R() <= i < T() ==>
        rt.feedbackRotation[i] == old(rt.feedbackRotation)[i] && rt.feedbackU[i] == old(rt.feedbackU)[i]
    {
      hide Read, WellConfigured;
      ghost var n0, u0 := rt.feedbackRotation, rt.feedbackU;
      var i := 0;
      while i < |tunnels|
        invariant 0 <= i <= A() && rt.Sized(M())
        invariant forall k :: 0 <= k < i ==> Read(k, n0[k], rt.feedbackRotation[k], rt.feedbackU[k])
        invariant forall k :: i <= k < M() ==> rt.feedbackRotation[k] == n0[k] && rt.feedbackU[k] == u0[k]
      {
        ReadOne(rt, i, tunnels[i]);
        i := i + 1;
      }
      var j := 0;
      while j < |azimuths|
        invariant 0 <= j <= |azimuths| && rt.Sized(M())
        invariant forall k :: 0 <= k < A() + j ==> Read(k, n0[k], rt.feedbackRotation[k], rt.feedbackU[k])
        invariant forall k :: A() + j <= k < M() ==> rt.feedbackRotation[k] == n0[k] && rt.feedbackU[k] == u0[k]
      {
        ReadOne(rt, A() + j, azimuths[j]);
        j := j + 1;
      }
      var l := 0;
      while l < |twinFixed|
        invariant 0 <= l <= |twinFixed| && rt.Sized(M())
        invariant forall k :: 0 <= k < R() || T() <= k < T() + l ==>
          Read(k, n0[k], rt.feedbackRotation[k], rt.feedbackU[k])
        invariant forall k :: R() <= k < T() || T() + l <= k < M() ==>
          rt.feedbackRotation[k] == n0[k] && rt.feedbackU[k] == u0[k]
      {
        ReadOne(rt, T() + l, twinFixed[l]);
        l := l + 1;
      }
    }

    // ----- The bounds for the solver -----

    /** The bounds of thruster `i` follow from its rotation, thrust and angle, and the demand. */
    ghost predicate Bounded(i: int, n: int, u: real, alpha: real, fx: real, mz: real)
      reads this
    {
      Configured() && Sized() && Modelled(i) &&
      BoundsAt(i) == BoundsOf(ThrusterAt(i), n, u, alpha, Desired(i, fx, mz), pi)
    }

    method SetBounds(i: int, b: Bounds)
      requires Sized() && Modelled(i)
      modifies this
      ensures Sized() && BoundsAt(i) == b
      ensures forall k :: Modelled(k) && k != i ==> BoundsAt(k) == old(BoundsAt(k))
    {
      lowerDeltaU, upperDeltaU := lowerDeltaU[i := b.lowerU], upperDeltaU[i := b.upperU];
      lowerDeltaAlpha, upperDeltaAlpha := lowerDeltaAlpha[i := b.lowerAlpha], upperDeltaAlpha[i := b.upperAlpha];
    }

    method CalculateConstraints(rt: RtData, fx: real, mz: real)
      requires Configured() && Sized() && rt.Sized(M())
      modifies this
      ensures forall i :: Modelled(i) ==>
        Bounded(i, rt.feedbackRotation[i], rt.feedbackU[i], rt.feedbackAlpha[i], fx, mz)
      ensures Sized()
    {
      hide TunnelBounds, AzimuthBounds, TwinFixedBounds, WellConfigured, TwinDemand;
      var rotation, u, alpha := rt.feedbackRotation, rt.feedbackU, rt.feedbackAlpha;
      var i := 0;
      while i < |tunnels|
        invariant 0 <= i <= A() && Sized()
        invariant forall k :: 0 <= k < i ==> Bounded(k, rotation[k], u[k], alpha[k], fx, mz)
      {
        SetBounds(i, TunnelBounds(tunnels[i], rotation[i], u[i], mz, pi));
        i := i + 1;
      }
      var j := 0;
      while j < |azimuths|
        invariant 0 <= j <= |azimuths| && Sized()
        invariant forall k :: 0 <= k < A() + j ==> Bounded(k, rotation[k], u[k], alpha[k], fx, mz)
      {
        var index := A() + j;
        SetBounds(index, AzimuthBounds(azimuths[j], rotation[index], u[index], alpha[index]));
        j := j + 1;
      }
      var l := 0;
      while l < |twinFixed|
        invariant 0 <= l <= |twinFixed| && Sized()
        invariant forall k :: 0 <= k < R() || T() <= k < T() + l ==> Bounded(k, rotation[k], u[k], alpha[k], fx, mz)
      {
        var index := T() + l;
        var demand := TwinDemand(l, twinFixed[0].ly, twinFixed[1].ly, fx, mz);
        SetBounds(index, TwinFixedBounds(twinFixed[l], rotation[index], u[index], demand, pi));
        l := l + 1;
      }
    }

    // ----- The solver's answer as the next command -----

    /** The solution is within every bound. */
    predicate Solved(results: seq<real>)
      reads this
    {
      Sized() && |results| == 2 * M() &&
      forall i :: 0 <= i < M() && Modelled(i) ==> Within(BoundsAt(i), results[i], results[M() + i])
    }

    /** The solution of the program: within every bound, or all zero after a failure. */
    predicate Answered(results: seq<real>)
      reads this
    {
      Sized() && |results| == 2 * M() &&
      (Solved(results) || forall k :: 0 <= k < 2 * M() ==> results[k] == 0.0)
    }

    lemma ZeroAnswered()
      requires Sized()
      ensures exists results: seq<real> :: |results| == 2 * M() && Answered(results)
    {
      assert Answered(seq(2 * M(), k => 0.0));
    }

    method UpdateAlphaAndU(rt: RtData, deltaU: seq<real>, deltaAlpha: seq<real>)
      requires rt.Sized(M()) && |deltaU| == |deltaAlpha| == M()
      modifies rt`commandU, rt`commandAlpha
      ensures rt.Sized(M())
      ensures forall i :: 0 <= i < M() ==> rt.commandU[i] == rt.feedbackU[i] + deltaU[i]
      ensures forall i :: 0 <= i < M() ==> rt.commandAlpha[i] == rt.feedbackAlpha[i] + deltaAlpha[i]
    {
      var u, alpha := rt.feedbackU, rt.feedbackAlpha;
      rt.commandU := seq(M(), i requires 0 <= i < M() => u[i] + deltaU[i]);
      rt.commandAlpha := seq(M(), i requires 0 <= i < M() => alpha[i] + deltaAlpha[i]);
    }

    method ConvertAlphaRadian2Int(rt: RtData)
      requires Configured() && rt.Sized(M())
      modifies rt`commandAlphaDeg
      ensures rt.Sized(M())
      ensures forall i :: Modelled(i) ==> rt.commandAlphaDeg[i] == Rad2Degree(rt.commandAlpha[i], pi)
      ensures forall i :: R() <= i < T() ==> rt.commandAlphaDeg[i] == old(rt.commandAlphaDeg)[i]
    {
      var i := 0;
      while i < R()
        invariant 0 <= i <= R() && rt.Sized(M())
        invariant forall k :: 0 <= k < i ==> rt.commandAlphaDeg[k] == Rad2Degree(rt.commandAlpha[k], pi)
        invariant forall k :: R() <= k < M() ==> rt.commandAlphaDeg[k] == old(rt.commandAlphaDeg)[k]
      {
        rt.commandAlphaDeg := rt.commandAlphaDeg[i := Rad2Degree(rt.commandAlpha[i], pi)];
        i := i + 1;
      }
      var l := 0;
      while l < |twinFixed|
        invariant 0 <= l <= |twinFixed| && rt.Sized(M())
        invariant forall k :: 0 <= k < R() || T() <= k < T() + l ==>
          rt.commandAlphaDeg[k] == Rad2Degree(rt.commandAlpha[k], pi)
        invariant forall k :: R() <= k < T() ==> rt.commandAlphaDeg[k] == old(rt.commandAlphaDeg)[k]
      {
        rt.commandAlphaDeg := rt.commandAlphaDeg[T() + l := Rad2Degree(rt.commandAlpha[T() + l], pi)];
        l := l + 1;
      }
    }

    /** Thruster `i` turns as thrust `u` and angle `alpha` ask, and its thrust is corrected where it may not stop. */
    ghost predicate Turned(i: int, u: real, alpha: real, n': int, u': real) {
      Modelled(i) && Configured() &&
      n' == CommandRotation(ThrusterAt(i), u, alpha, pi) && u' == CommandThrust(ThrusterAt(i), u, alpha, pi)
    }

    method TurnOne(rt: RtData, index: nat, t: Thruster)
      requires Configured() && rt.Sized(M()) && Modelled(index) && t == ThrusterAt(index)
      modifies rt`commandRotation, rt`commandU
      ensures rt.Sized(M())
      ensures Turned(index, old(rt.commandU)[index], rt.commandAlpha[index], rt.commandRotation[index],
                     rt.commandU[index])
      ensures forall k :: 0 <= k < M() && k != index ==>
        rt.commandRotation[k] == old(rt.commandRotation)[k] && rt.commandU[k] == old(rt.commandU)[k]
    {
      hide CommandRotation, CommandThrust, WellConfigured;
      var n := CommandRotation(t, rt.commandU[index], rt.commandAlpha[index], pi);
      var u := CommandThrust(t, rt.commandU[index], rt.commandAlpha[index], pi);
      rt.commandRotation, rt.commandU := rt.commandRotation[index := n], rt.commandU[index := u];
    }

    method CalculateRotation(rt: RtData)
      requires Configured() && rt.Sized(M())
      modifies rt`commandRotation, rt`commandU
      ensures rt.Sized(M())
      ensures forall i :: Modelled(i) ==>
        Turned(i, old(rt.commandU)[i], rt.commandAlpha[i], rt.commandRotation[i], rt.commandU[i])
      ensures forall i :: R() <= i < T() ==>
        rt.commandRotation[i] == old(rt.commandRotation)[i] && rt.commandU[i] == old(rt.commandU)[i]
    {
      hide Turned, WellConfigured;
      ghost var n0, u0 := rt.commandRotation, rt.commandU;
      var i := 0;
      while i < R()
        invariant 0 <= i <= R() && rt.Sized(M())
        invariant forall k :: 0 <= k < i ==>
          Turned(k, u0[k], rt.commandAlpha[k], rt.commandRotation[k], rt.commandU[k])
        invariant forall k :: i <= k < M() ==> rt.commandRotation[k] == n0[k] && rt.commandU[k] == u0[k]
      {
        // the tunnel thrusters first, the azimuth thrusters after them
        TurnOne(rt, i, if i < A() then tunnels[i] else azimuths[i - A()]);
        i := i + 1;
      }
      var l := 0;
      while l < |twinFixed|
        invariant 0 <= l <= |twinFixed| && rt.Sized(M())
        invariant forall k :: 0 <= k < R() || T() <= k < T() + l ==>
          Turned(k, u0[k], rt.commandAlpha[k], rt.commandRotation[k], rt.commandU[k])
        invariant forall k :: R() <= k < T() || T() + l <= k < M() ==>
          rt.commandRotation[k] == n0[k] && rt.commandU[k] == u0[k]
      {
        TurnOne(rt, T() + l, twinFixed[l]);
        l := l + 1;
      }
    }

    /** Thruster `i` was fed back `d` and is now commanded `d'`. */
    ghost predicate Stepped(i: int, d: Drive, d': Drive, fx: real, mz: real) {
      Modelled(i) && Configured() &&
      exists du: real, dalpha: real ::
        Answer(StepBounds(ThrusterAt(i), d, Desired(i, fx, mz), pi), du, dalpha) &&
        d' == Step(ThrusterAt(i), d, du, dalpha, pi)
    }

    /** The last part of a step: the increments, whole degrees, and the rotations they ask for. */
    method UpdateNextstepCommand(rt: RtData, results: seq<real>)
      requires Configured() && rt.Sized(M()) && |results| == 2 * M()
      modifies rt`commandU, rt`commandAlpha, rt`commandAlphaDeg, rt`commandRotation
      ensures rt.Sized(M())
      ensures forall i :: Modelled(i) ==>
        rt.commandAlphaDeg[i] == Rad2Degree(rt.feedbackAlpha[i] + results[M() + i], pi) &&
        Turned(i, rt.feedbackU[i] + results[i], rt.feedbackAlpha[i] + results[M() + i], rt.commandRotation[i],
               rt.commandU[i])
    {
      hide Turned, Rad2Degree, WellConfigured;
      UpdateAlphaAndU(rt, results[..M()], results[M()..]);
      ConvertAlphaRadian2Int(rt);
      ghost var u := rt.commandU;
      CalculateRotation(rt);
      forall i | Modelled(i)
        ensures Turned(i, rt.feedbackU[i] + results[i], rt.feedbackAlpha[i] + results[M() + i], rt.commandRotation[i],
                       rt.commandU[i])
      {
        assert Turned(i, u[i], rt.commandAlpha[i], rt.commandRotation[i], rt.commandU[i]);
      }
    }

    /** What the parts of a step do to one thruster is a step of it. */
    lemma StepOne(i: int, d: Drive, n: int, u: real, alpha: real, fx: real, mz: real, results: seq<real>, d': Drive,
                  u': real)
      requires Configured() && Modelled(i) && Answered(results)
      requires Read(i, d.rotation, n, u) && alpha == Degree2Rad(d.alphaDeg, pi) && Bounded(i, n, u, alpha, fx, mz)
      requires Turned(i, u + results[i], alpha + results[M() + i], d'.rotation, u')
      requires d'.alphaDeg == Rad2Degree(alpha + results[M() + i], pi)
      ensures Stepped(i, d, d', fx, mz)
      ensures Healthy(ThrusterAt(i), d, pi) ==>
        Healthy(ThrusterAt(i), d', pi) && Gradual(ThrusterAt(i), d, d', pi)
      ensures Healthy(ThrusterAt(i), d, pi) && Solved(results) ==>
        TurnsAsAsked(ThrusterAt(i), d.rotation, Desired(i, fx, mz), d'.rotation)
      ensures Healthy(ThrusterAt(i), d, pi) && !Solved(results) ==> d' == d
    {
      hide Healthy, Gradual, TurnsAsAsked, BoundsOf, FeedbackRotation, FeedbackThrust, CommandRotation, CommandThrust,
           Rad2Degree, Degree2Rad, Desired, WellConfigured;
      var t, desired, du, dalpha := ThrusterAt(i), Desired(i, fx, mz), results[i], results[M() + i];
      assert Answer(BoundsAt(i), du, dalpha);
      assert BoundsAt(i) == StepBounds(t, d, desired, pi);
      assert d' == Step(t, d, du, dalpha, pi);
      if Healthy(t, d, pi) {
        StepSafe(t, d, desired, du, dalpha, pi);
        if Solved(results) {
          DirectionFollows(t, d, desired, du, dalpha, pi);
        } else {
          assert du == dalpha == 0.0;
          ZeroAnswerKeeps(t, d, pi);
        }
      }
    }

    /** The twins' thrusts `t0` and `t1` give the surge force and the yaw moment. */
    predicate Balances(t0: real, t1: real, fx: real, mz: real) {
      |twinFixed| == 2 && twinFixed[0].TwinFixed? && twinFixed[1].TwinFixed? &&
      t0 + t1 == fx && -twinFixed[0].ly * t0 - twinFixed[1].ly * t1 == mz
    }

    lemma BalanceIsDesired(t0: real, t1: real, fx: real, mz: real)
      requires Configured() && Balances(t0, t1, fx, mz)
      ensures Modelled(T()) && ThrusterAt(T()) == twinFixed[0] && Desired(T(), fx, mz) == t0
      ensures Modelled(T() + 1) && ThrusterAt(T() + 1) == twinFixed[1] && Desired(T() + 1, fx, mz) == t1
    {
      hide TwinDemand, WellConfigured;
      OnlyBalance(twinFixed[0].ly, twinFixed[1].ly, fx, mz, t0, t1);
    }

    /** Slow tunnel thrusters have turned the way of the yaw moment. */
    ghost predicate TunnelsFollow(rt: RtData, before: seq<Drive>, mz: real)
      reads rt
    {
      rt.Sized(M()) && |before| == M() && 0.0 < pi &&
      forall i :: 0 <= i < A() ==>
        tunnels[i].Tunnel? &&
        (Healthy(tunnels[i], before[i], pi) && 0 < Magnitude(before[i].rotation) <= tunnels[i].maxDelta ==>
          (rt.commandRotation[i] > 0 <==> mz > 0.0))
    }

    /** Twin `l`, if slow, has turned the way of its share. */
    ghost predicate TwinFollows(rt: RtData, before: seq<Drive>, l: nat, share: real)
      reads rt
    {
      rt.Sized(M()) && |before| == M() && 0.0 < pi && l < |twinFixed| && twinFixed[l].TwinFixed? &&
      (Healthy(twinFixed[l], before[T() + l], pi) && Magnitude(before[T() + l].rotation) < twinFixed[l].maxDeltaP2n ==>
        (rt.commandRotation[T() + l] > 0 <==> share >= 0.0))
    }

    ghost predicate TwinsFollow(rt: RtData, before: seq<Drive>, fx: real, mz: real)
      reads rt
    {
      forall t0: real, t1: real :: Balances(t0, t1, fx, mz) ==>
        TwinFollows(rt, before, 0, t0) && TwinFollows(rt, before, 1, t1)
    }

    function Feedbacks(rt: RtData): (drives: seq<Drive>)
      requires rt.Sized(M())
      reads rt
      ensures |drives| == M() && forall i :: 0 <= i < M() ==> drives[i] == rt.Feedback(i)
    {
      seq(M(), i requires 0 <= i < M() && rt.Sized(M()) reads rt => rt.Feedback(i))
    }

    lemma Follow(rt: RtData, before: seq<Drive>, fx: real, mz: real)
      requires Configured() && rt.Sized(M()) && |before| == M()
      requires forall i :: Modelled(i) && Healthy(ThrusterAt(i), before[i], pi) ==>
        TurnsAsAsked(ThrusterAt(i), before[i].rotation, Desired(i, fx, mz), rt.Command(i).rotation)
      ensures TunnelsFollow(rt, before, mz) && TwinsFollow(rt, before, fx, mz)
    {
      hide Healthy, WellConfigured, TwinDemand;
      forall i | 0 <= i < A()
        ensures Modelled(i) && ThrusterAt(i) == tunnels[i] && Desired(i, fx, mz) == mz
      {
      }
      hide Desired;
      forall t0: real, t1: real | Balances(t0, t1, fx, mz)
        ensures TwinFollows(rt, before, 0, t0) && TwinFollows(rt, before, 1, t1)
      {
        BalanceIsDesired(t0, t1, fx, mz);
      }
    }

    /** One step, for whatever the solver answers; `solved` if it respected the bounds, and else it failed. */
    method OneStepThrustAllocation(rt: RtData, fx: real, mz: real) returns (ghost solved: bool)
      requires Configured() && Sized() && rt.Sized(M())
      modifies this, rt
      ensures Sized() && rt.Sized(M())
      ensures forall i :: Modelled(i) ==> Stepped(i, old(rt.Feedback(i)), rt.Command(i), fx, mz)
      ensures forall i :: Modelled(i) && Healthy(ThrusterAt(i), old(rt.Feedback(i)), pi) ==>
        Healthy(ThrusterAt(i), rt.Command(i), pi) && Gradual(ThrusterAt(i), old(rt.Feedback(i)), rt.Command(i), pi)
      ensures solved ==> TunnelsFollow(rt, old(Feedbacks(rt)), mz) && TwinsFollow(rt, old(Feedbacks(rt)), fx, mz)
      ensures !solved ==> forall i :: Modelled(i) && Healthy(ThrusterAt(i), old(rt.Feedback(i)), pi) ==>
        rt.Command(i) == old(rt.Feedback(i))
    {
      hide Healthy, Gradual, TurnsAsAsked, Read, Bounded, Turned, Stepped, Answered, Solved, Rad2Degree, Degree2Rad,
           WellConfigured, Desired, TunnelsFollow, TwinsFollow;
      ghost var n0, before := rt.feedbackRotation, Feedbacks(rt);
      ConvertAlphaInt2Radian(rt);
      CalculateU(rt);
      CalculateConstraints(rt, fx, mz);
      ZeroAnswered();
      var results: seq<real> :| |results| == 2 * M() && Answered(results);
      solved := Solved(results);
      UpdateNextstepCommand(rt, results);
      forall i | Modelled(i)
        ensures Stepped(i, old(rt.Feedback(i)), rt.Command(i), fx, mz)
        ensures Healthy(ThrusterAt(i), old(rt.Feedback(i)), pi) ==>
          Healthy(ThrusterAt(i), rt.Command(i), pi) && Gradual(ThrusterAt(i), old(rt.Feedback(i)), rt.Command(i), pi)
        ensures Healthy(ThrusterAt(i), before[i], pi) && solved ==>
          TurnsAsAsked(ThrusterAt(i), before[i].rotation, Desired(i, fx, mz), rt.Command(i).rotation)
        ensures Healthy(ThrusterAt(i), old(rt.Feedback(i)), pi) && !solved ==>
          rt.Command(i) == old(rt.Feedback(i))
      {
        assert Read(i, n0[i], rt.feedbackRotation[i], rt.feedbackU[i]);
        assert Bounded(i, rt.feedbackRotation[i], rt.feedbackU[i], rt.feedbackAlpha[i], fx, mz);
        StepOne(i, old(rt.Feedback(i)), rt.feedbackRotation[i], rt.feedbackU[i], rt.feedbackAlpha[i], fx, mz, results,
                rt.Command(i), rt.commandU[i]);
      }
      if solved {
        Follow(rt, before, fx, mz);
      }
    }
  }
}
