/** The per-draw-call layer of d3d.cpp: the nesting counter `begin`/`end`
    (d3d.cpp:761-773), binding and unbinding the shader pair in `shader_start`/`shader_end`
    (d3d.cpp:775-855), and `run_d3d_trampoline` (d3d.cpp:1046-1100), which renders a draw
    call first into the depth map and then into the back buffer. The device is a small
    state machine that keeps the operations issued to it and the draw calls it received. */
module Draw {
  import opened Wrappers
  import opened Flags
  import opened FileSystem
  import opened Device
  import opened ModPaths
  import opened Registry

  /** A `Uint32`/`DWORD` value. */
  type U32 = x: int | 0 <= x < 0x1_0000_0000

  /** The shader parameters declared in d3d.cpp. Only their identity matters here: a
      parameter is either pending (assigned since its last upload) or not. */
  datatype Param =
    | WorldMatrix | WvMatrix | ProjectionMatrix | WvMatrixInvT | TextureTransform
    | NormalScale | LightDirection | DiffuseSource | MaterialDiffuse
    | FogMode | FogConfig | FogColor
    | CameraPosition | MaterialSpecular | MaterialPower
    | LightDiffuse | LightSpecular | LightAmbient
    | ParticleScale | DepthOverride | DrawDistance | ViewPort

  /** Render target 0: the original back buffer or the depth texture's surface. */
  datatype Target = Backbuffer | DepthSurface

  /** Operations issued to the device (and the error dialog), in order. */
  datatype Op =
    | SetVertexShader(vs: Shader)
    | SetPixelShader(ps: Shader)
    | CommitParams(params: set<Param>)
    | SetZWrite(enabled: U32)
    | SetRenderTarget(target: Target)
    | ShowError(message: string)

  /** A draw call forwarded to the device, with the shader flags the mod held and the
      pipeline state the device was in. */
  datatype DrawCall = DrawCall(flags: ShaderFlags, vs: Shader, ps: Shader, zwrite: U32, target: Target)

  /** What the device has bound, its render state, and everything it was asked to do. */
  datatype DeviceState = DeviceState(vs: Shader, ps: Shader, zwrite: U32, target: Target, ops: seq<Op>, draws: seq<DrawCall>)

  /** The mod's globals that the draw path reads and writes. */
  datatype State = State(
    drawing: U32,
    doEffect: bool,
    usingShader: bool,
    shaderFlags: ShaderFlags,
    lastFlags: ShaderFlags,
    vertexShader: Shader,
    pixelShader: Shader,
    pending: set<Param>,
    shaders: Shaders,
    fs: Fs,
    device: DeviceState)

  /** What a draw call depends on besides the globals: the platform behind the registry,
      the mod's folders, whether the camera object exists, and `no_depth`. */
  datatype Env = Env(platform: Platform, loc: Locations, cameraPresent: bool, noDepth: bool)

  /** The result of a forwarded draw: the new state and the `HRESULT` returned to the game. */
  datatype Drawn = Drawn(state: State, hr: HResult)

  /** The globals at start-up, on a device with nothing bound. */
  function Initial(shaders: Shaders, fs: Fs, zwrite: U32): State {
    State(0, false, false, DefaultFlags, DefaultFlags, NullShader, NullShader, {}, shaders, fs,
          DeviceState(NullShader, NullShader, zwrite, Backbuffer, [], []))
  }

  /** The device after one operation. */
  function Apply(d: DeviceState, op: Op): (r: DeviceState)
    ensures r.ops == d.ops + [op] && r.draws == d.draws
    ensures r.vs == (if op.SetVertexShader? then op.vs else d.vs)
    ensures r.ps == (if op.SetPixelShader? then op.ps else d.ps)
    ensures r.zwrite == (if op.SetZWrite? then op.enabled else d.zwrite)
    ensures r.target == (if op.SetRenderTarget? then op.target else d.target)
  {
    var d' := d.(ops := d.ops + [op]);
    match op
    case SetVertexShader(vs) => d'.(vs := vs)
    case SetPixelShader(ps) => d'.(ps := ps)
    case SetZWrite(z) => d'.(zwrite := z)
    case SetRenderTarget(t) => d'.(target := t)
    case _ => d'
  }

  /** The device receiving the forwarded draw call. */
  function Forward(d: DeviceState, flags: ShaderFlags): (r: DeviceState)
    ensures r.draws == d.draws + [DrawCall(flags, d.vs, d.ps, d.zwrite, d.target)]
    ensures r.(draws := d.draws) == d
  {
    d.(draws := d.draws + [DrawCall(flags, d.vs, d.ps, d.zwrite, d.target)])
  }

  /** The device holds the pair the mod believes is bound: the stored pair while
      `using_shader` is set, and no shaders otherwise. */
  predicate Synced(s: State) {
    && s.device.vs == (if s.usingShader then s.vertexShader else NullShader)
    && s.device.ps == (if s.usingShader then s.pixelShader else NullShader)
  }

  /** The device log only grows. */
  predicate Extends(before: DeviceState, after: DeviceState) {
    && |before.ops| <= |after.ops| && after.ops[..|before.ops|] == before.ops
    && |before.draws| <= |after.draws| && after.draws[..|before.draws|] == before.draws
  }

  /** The globals apart from the shader binding and the device are unchanged. */
  predicate SameDrawGlobals(s: State, r: State) {
    r.drawing == s.drawing && r.doEffect == s.doEffect && r.shaderFlags == s.shaderFlags
  }

  // ---------------------------------------------------------------------------------------
  // begin / end

  /** `begin`: one more nested drawing call; the 32-bit counter wraps. */
  function Begin(s: State): (r: State)
    ensures r.drawing == (s.drawing + 1) % 0x1_0000_0000
    ensures r.(drawing := s.drawing) == s
  {
    s.(drawing := (s.drawing + 1) % 0x1_0000_0000)
  }

  /** `end`: one nested call fewer; leaving the outermost one switches the effect off. An
      `end` without a matching `begin` does nothing. */
  function End(s: State): (r: State)
    ensures s.drawing > 0 ==> r.drawing == s.drawing - 1
    ensures s.drawing == 0 ==> r == s
    ensures r.doEffect == (s.doEffect && s.drawing != 1)
    ensures r.(drawing := s.drawing, doEffect := s.doEffect) == s
  {
    if s.drawing > 0 then
      var d := s.drawing - 1;
      if d < 1 then s.(drawing := 0, doEffect := false) else s.(drawing := d)
    else s
  }

  function Begins(s: State, n: nat): State {
    if n == 0 then s else Begin(Begins(s, n - 1))
  }

  function Ends(s: State, n: nat): State
    decreases n
  {
    if n == 0 then s else Ends(End(s), n - 1)
  }

  lemma BeginsCount(s: State, n: nat)
    requires s.drawing + n < 0x1_0000_0000
    ensures Begins(s, n) == s.(drawing := s.drawing + n)
  {
    if n > 0 {
      BeginsCount(s, n - 1);
    }
  }

  /** Properly nested `begin`/`end` pairs restore the counter, and switch the effect off
      exactly when they close the outermost level. */
  lemma {:induction false} NestingRestores(s: State, n: nat)
    requires s.drawing + n < 0x1_0000_0000
    ensures Ends(Begins(s, n), n) == s.(doEffect := s.doEffect && !(n > 0 && s.drawing == 0))
  {
    if n > 0 {
      var x := Begins(s, n - 1);
      BeginsCount(s, n - 1);
      assert Begins(s, n) == Begin(x);
      if x.drawing >= 1 {
        assert End(Begin(x)) == x;
        NestingRestores(s, n - 1);
      } else {
        assert n == 1 && x == s;
        assert End(Begin(s)) == s.(doEffect := false);
      }
    }
  }

  /** `drawing` is a `Uint32`: the 2^32-th nested `begin` wraps it to 0, which turns the
      effect gate shut until the next `begin`. */
  lemma BeginWraps(s: State)
    requires s.drawing == 0xffff_ffff
    ensures Begin(s).drawing == 0
  {
  }

  // ---------------------------------------------------------------------------------------
  // shader_end / shader_start

  /** `shader_end`: unbind the pixel and then the vertex shader if a pair is bound. */
  function ShaderEnd(s: State): (r: State)
    ensures !r.usingShader
    ensures Synced(s) ==> Synced(r)
    ensures Extends(s.device, r.device) && r.device.draws == s.device.draws
    ensures r.device.zwrite == s.device.zwrite && r.device.target == s.device.target
    ensures r.(usingShader := s.usingShader, device := s.device) == s
  {
    if s.usingShader then
      s.(usingShader := false,
         device := Apply(Apply(s.device, SetPixelShader(NullShader)), SetVertexShader(NullShader)))
    else s
  }

  /** The end of a successful `shader_start`: upload the pending parameters (nothing is
      uploaded when none are pending), forget them, and mark the pair bound. */
  function Finish(s: State): (r: State)
    ensures r.usingShader && r.pending == {}
    ensures r.device.ops == s.device.ops + (if s.pending == {} then [] else [CommitParams(s.pending)])
    ensures r.(usingShader := s.usingShader, pending := s.pending, device := s.device) == s
    ensures r.device.(ops := s.device.ops) == s.device
  {
    var d := if s.pending == {} then s.device else Apply(s.device, CommitParams(s.pending));
    s.(usingShader := true, pending := {}, device := d)
  }

  /** Bind `vs` unless the same object is already bound. */
  function BindVertex(s: State, vs: Shader): (r: State)
    ensures r.vertexShader == vs
    ensures r.device.vs == (if !s.usingShader || vs != s.vertexShader then vs else s.device.vs)
    ensures r.device.ops == s.device.ops + (if !s.usingShader || vs != s.vertexShader then [SetVertexShader(vs)] else [])
    ensures r.(vertexShader := s.vertexShader, device := s.device) == s
    ensures r.device.(ops := s.device.ops, vs := s.device.vs) == s.device
  {
    if !s.usingShader || vs != s.vertexShader then
      s.(vertexShader := vs, device := Apply(s.device, SetVertexShader(vs)))
    else s
  }

  /** Bind `ps` unless the same object is already bound. */
  function BindPixel(s: State, ps: Shader): (r: State)
    ensures r.pixelShader == ps
    ensures r.device.ps == (if !s.usingShader || ps != s.pixelShader then ps else s.device.ps)
    ensures r.device.ops == s.device.ops + (if !s.usingShader || ps != s.pixelShader then [SetPixelShader(ps)] else [])
    ensures r.(pixelShader := s.pixelShader, device := s.device) == s
    ensures r.device.(ops := s.device.ops, ps := s.device.ps) == s.device
  {
    if !s.usingShader || ps != s.pixelShader then
      s.(pixelShader := ps, device := Apply(s.device, SetPixelShader(ps)))
    else s
  }

  /** A variant lookup threw: unbind, show the message, and give up on this draw. */
  function Report(s: State, message: string): (r: State)
    ensures !r.usingShader && r.pending == s.pending && r.lastFlags == s.lastFlags
    ensures r.vertexShader == s.vertexShader && r.pixelShader == s.pixelShader
    ensures r.shaders == s.shaders && r.fs == s.fs && SameDrawGlobals(s, r)
    ensures Synced(s) ==> Synced(r)
    ensures Extends(s.device, r.device) && r.device.draws == s.device.draws
    ensures r.device.zwrite == s.device.zwrite && r.device.target == s.device.target
    ensures Reported(r) && r.device.ops[|r.device.ops| - 1] == ShowError(message)
  {
    var e := ShaderEnd(s);
    e.(device := Apply(e.device, ShowError(message)))
  }

  /** A single step of `shader_start` that keeps the device log, the render state and the
      binding invariant, and touches no drawing global. */
  predicate Steps(s: State, r: State) {
    && SameDrawGlobals(s, r)
    && (Synced(s) ==> Synced(r))
    && Extends(s.device, r.device) && r.device.draws == s.device.draws
    && r.device.zwrite == s.device.zwrite && r.device.target == s.device.target
  }

  /** Bind the fetched pair and finish. */
  function BindPair(s: State, vs: Shader, ps: Shader): (r: State)
    ensures Steps(s, r) && r.lastFlags == s.lastFlags && r.shaders == s.shaders && r.fs == s.fs
    ensures r.usingShader && r.pending == {} && r.vertexShader == vs && r.pixelShader == ps
    ensures r.device.ops == s.device.ops
              + (if !s.usingShader || vs != s.vertexShader then [SetVertexShader(vs)] else [])
              + (if !s.usingShader || ps != s.pixelShader then [SetPixelShader(ps)] else [])
              + (if s.pending == {} then [] else [CommitParams(s.pending)])
  {
    Finish(BindPixel(BindVertex(s, vs), ps))
  }

  /** The last thing done was showing an error. */
  predicate Reported(s: State) {
    |s.device.ops| > 0 && s.device.ops[|s.device.ops| - 1].ShowError?
  }

  /** How a switch ends: bound with nothing pending, or unbound after reporting, with the
      pending parameters kept. */
  predicate Settled(s: State, r: State) {
    && Steps(s, r) && r.lastFlags == s.lastFlags
    && (r.usingShader ==> r.pending == {})
    && (!r.usingShader ==> r.pending == s.pending && Reported(r) && r.vertexShader == s.vertexShader && r.pixelShader == s.pixelShader)
  }

  /** Report a failed lookup, or bind the pair. */
  function Conclude(s: State, ps: Result<Shader>, vs: Shader): (r: State)
    ensures Settled(s, r)
  {
    if ps.Err? then Report(s, ps.error) else BindPair(s, vs, ps.value)
  }

  /** The second half of a switch: fetch the pixel variant, which may throw. */
  function SwitchPixel(env: Env, s: State, flags: ShaderFlags, vs: Shader): (r: State)
    ensures Settled(s, r)
  {
    var p := GetPixelShader(env.platform, env.loc, s.shaders, s.fs, flags);
    Conclude(s.(shaders := p.shaders, fs := p.fs), p.result, vs)
  }

  /** The flags changed since the last bind: fetch the vertex and then the pixel variant
      (either may throw), and bind each that is not already bound. */
  function Switch(env: Env, s: State, flags: ShaderFlags): (r: State)
    ensures Settled(s, r)
  {
    var v := GetVertexShader(env.platform, env.loc, s.shaders, s.fs, flags);
    var t := s.(shaders := v.shaders, fs := v.fs);
    if v.result.Err? then Report(t, v.result.error)
    else SwitchPixel(env, t, flags, v.result.value)
  }

  /** The parameters pending once the camera position has been assigned (when there is a
      camera). */
  function WithCamera(env: Env, pending: set<Param>): (r: set<Param>)
    ensures r == pending + (if env.cameraPresent then {CameraPosition} else {})
  {
    if env.cameraPresent then pending + {CameraPosition} else pending
  }

  /** `shader_start` when the sanitized flags equal the last ones: rebind the stored pair
      if nothing is bound, then upload what is pending. */
  function Resume(env: Env, s: State): (r: State)
    ensures Steps(s, r) && r.lastFlags == s.lastFlags && r.shaders == s.shaders && r.fs == s.fs
    ensures r.usingShader && r.pending == {}
    ensures r.vertexShader == s.vertexShader && r.pixelShader == s.pixelShader
  {
    var t := s.(pending := WithCamera(env, s.pending));
    if !s.usingShader then
      Finish(t.(device := Apply(Apply(t.device, SetVertexShader(t.vertexShader)), SetPixelShader(t.pixelShader))))
    else Finish(t)
  }

  /** `shader_start` when the sanitized flags differ from the last ones: remember them,
      then switch to their variants. */
  function Retarget(env: Env, s: State, flags: ShaderFlags): (r: State)
    ensures Steps(s, r) && r.lastFlags == flags
    ensures r.usingShader ==> r.pending == {}
    ensures !r.usingShader ==> r.pending == WithCamera(env, s.pending) && Reported(r)
    ensures !r.usingShader ==> r.vertexShader == s.vertexShader && r.pixelShader == s.pixelShader
  {
    Switch(env, s.(pending := WithCamera(env, s.pending), lastFlags := flags), flags)
  }

  /** `shader_start`: bind the variant for the current flags when the effect is on inside
      a drawing call, and unbind otherwise. */
  function ShaderStart(env: Env, s: State): (r: State)
    ensures Steps(s, r)
    ensures r.usingShader ==> s.doEffect && s.drawing > 0 && r.pending == {} && r.lastFlags == Sanitize(s.shaderFlags)
  {
    if !s.doEffect || s.drawing == 0 then ShaderEnd(s)
    else if Sanitize(s.shaderFlags) != s.lastFlags then Retarget(env, s, Sanitize(s.shaderFlags))
    else Resume(env, s)
  }

  /** The effect gate: outside a drawing call, or with the effect off, no shader stays bound
      and nothing is looked up, compiled or uploaded. */
  lemma StartGated(env: Env, s: State)
    requires !s.doEffect || s.drawing == 0
    ensures var r := ShaderStart(env, s);
            && !r.usingShader && r.pending == s.pending && r.lastFlags == s.lastFlags
            && r.shaders == s.shaders && r.fs == s.fs
            && forall i :: |s.device.ops| <= i < |r.device.ops| ==> r.device.ops[i].SetVertexShader? || r.device.ops[i].SetPixelShader?
  {
  }

  /** Nothing to do at start-up: no drawing call is open. */
  lemma InitialStartIsSilent(env: Env, shaders: Shaders, fs: Fs, zwrite: U32)
    ensures ShaderStart(env, Initial(shaders, fs, zwrite)) == Initial(shaders, fs, zwrite)
  {
  }

  /** With the flags unchanged and the pair bound, the registry is not consulted and no
      shader is rebound; only pending parameters are uploaded. */
  lemma StartSteady(env: Env, s: State)
    requires s.doEffect && s.drawing > 0 && s.usingShader && Sanitize(s.shaderFlags) == s.lastFlags
    ensures var r := ShaderStart(env, s);
            var pending := WithCamera(env, s.pending);
            && r.shaders == s.shaders && r.fs == s.fs
            && r.vertexShader == s.vertexShader && r.pixelShader == s.pixelShader
            && r.device.vs == s.device.vs && r.device.ps == s.device.ps
            && r.device.ops == s.device.ops + (if pending == {} then [] else [CommitParams(pending)])
  {
  }

  /** After a successful switch the bound pair is what the registry holds for the current
      flags: the vertex variant under the vertex key and the pixel variant under the pixel
      key. */
  lemma SwitchBindsRegistered(env: Env, s: State)
    requires s.doEffect && s.drawing > 0 && Sanitize(s.shaderFlags) != s.lastFlags
    requires ShaderStart(env, s).usingShader
    ensures var r := ShaderStart(env, s);
            && Slot(VertexKey(s.shaderFlags)) in r.shaders.vertex
            && r.vertexShader == r.shaders.vertex[Slot(VertexKey(s.shaderFlags))]
            && Slot(PixelKey(s.shaderFlags)) in r.shaders.pixel
            && r.pixelShader == r.shaders.pixel[Slot(PixelKey(s.shaderFlags))]
  {
    var flags := Sanitize(s.shaderFlags);
    SanitizeIdempotent(s.shaderFlags);
    assert VertexKey(flags) == VertexKey(s.shaderFlags) && PixelKey(flags) == PixelKey(s.shaderFlags);
    var t := s.(pending := WithCamera(env, s.pending), lastFlags := flags);
    var v := GetVertexShader(env.platform, env.loc, t.shaders, t.fs, flags);
    var p := GetPixelShader(env.platform, env.loc, v.shaders, v.fs, flags);
    assert v.result.Ok? && p.result.Ok?;
    assert p.shaders.vertex == v.shaders.vertex;
  }

  /** The rebind rule: a stage is set again only if no pair was bound or its object
      changed; an unchanged object already on a bound device is left alone. */
  lemma SwitchRebindsOnlyChanged(env: Env, s: State)
    requires s.doEffect && s.drawing > 0 && Sanitize(s.shaderFlags) != s.lastFlags
    requires ShaderStart(env, s).usingShader
    ensures var r := ShaderStart(env, s);
            var pending := WithCamera(env, s.pending);
            r.device.ops == s.device.ops
              + (if !s.usingShader || r.vertexShader != s.vertexShader then [SetVertexShader(r.vertexShader)] else [])
              + (if !s.usingShader || r.pixelShader != s.pixelShader then [SetPixelShader(r.pixelShader)] else [])
              + (if pending == {} then [] else [CommitParams(pending)])
  {
    var flags := Sanitize(s.shaderFlags);
    var t := s.(pending := WithCamera(env, s.pending), lastFlags := flags);
    assert ShaderStart(env, s) == Switch(env, t, flags);
    var v := GetVertexShader(env.platform, env.loc, t.shaders, t.fs, flags);
    var t' := t.(shaders := v.shaders, fs := v.fs);
    assert v.result.Ok?;
    assert Switch(env, t, flags) == SwitchPixel(env, t', flags, v.result.value);
    var p := GetPixelShader(env.platform, env.loc, t'.shaders, t'.fs, flags);
    var u := t'.(shaders := p.shaders, fs := p.fs);
    assert p.result.Ok?;
    assert SwitchPixel(env, t', flags, v.result.value) == Conclude(u, p.result, v.result.value);
    assert Conclude(u, p.result, v.result.value) == BindPair(u, v.result.value, p.result.value);
  }

  /** A failed lookup unbinds, reports, and keeps the pending parameters for later; the new
      flags are remembered all the same. */
  lemma StartFailure(env: Env, s: State)
    requires s.doEffect && s.drawing > 0
    requires !ShaderStart(env, s).usingShader
    ensures var r := ShaderStart(env, s);
            && Sanitize(s.shaderFlags) != s.lastFlags
            && r.lastFlags == Sanitize(s.shaderFlags)
            && r.pending == WithCamera(env, s.pending)
            && Reported(r)
  {
    if Sanitize(s.shaderFlags) != s.lastFlags {
      assert ShaderStart(env, s) == Retarget(env, s, Sanitize(s.shaderFlags));
    }
  }

  /** Because the new flags are remembered before the lookup that failed, the next
      `shader_start` with the same flags sees no change and binds the pair stored from
      before, which belongs to other flags. */
  lemma StaleRebindAfterFailure(env: Env, s: State)
    requires s.doEffect && s.drawing > 0
    requires !ShaderStart(env, s).usingShader
    ensures var r := ShaderStart(env, s);
            var n := ShaderStart(env, r);
            && n.usingShader
            && n.vertexShader == s.vertexShader && n.pixelShader == s.pixelShader
            && n.shaders == r.shaders && n.fs == r.fs
  {
    StartFailure(env, s);
    var r := ShaderStart(env, s);
    assert r == Retarget(env, s, Sanitize(s.shaderFlags));
    assert ShaderStart(env, r) == Resume(env, r);
  }

  // ---------------------------------------------------------------------------------------
  // run_d3d_trampoline

  /** Whether the draw is rendered in one pass: depth writes are off or depth is disabled
      for this draw. */
  predicate SinglePass(env: Env, s: State) {
    s.device.zwrite == 0 || env.noDepth
  }

  /** The depth pass: add DepthMap, bind, turn depth writes off, target the depth surface,
      forward, then restore the back buffer and depth writes. */
  function DepthPass(env: Env, s: State): (r: State)
    ensures r.shaderFlags == s.shaderFlags | DepthMap
    ensures Synced(s) ==> Synced(r)
    ensures Extends(s.device, r.device)
    ensures r.device.zwrite == s.device.zwrite && r.device.target == Backbuffer
    ensures r.device.draws == s.device.draws + [DrawCall(s.shaderFlags | DepthMap, r.device.vs, r.device.ps, 0, DepthSurface)]
  {
    var started := ShaderStart(env, s.(shaderFlags := s.shaderFlags | DepthMap));
    var d := Apply(Apply(started.device, SetZWrite(0)), SetRenderTarget(DepthSurface));
    var drawn := Forward(d, started.shaderFlags);
    started.(device := Apply(Apply(drawn, SetRenderTarget(Backbuffer)), SetZWrite(s.device.zwrite)))
  }

  /** Bind for the current flags and forward the draw to the device as it stands. */
  function Pass(env: Env, s: State): (r: State)
    ensures r.shaderFlags == s.shaderFlags
    ensures Synced(s) ==> Synced(r)
    ensures Extends(s.device, r.device)
    ensures r.device.zwrite == s.device.zwrite && r.device.target == s.device.target
    ensures r.device.draws == s.device.draws + [DrawCall(s.shaderFlags, r.device.vs, r.device.ps, s.device.zwrite, s.device.target)]
  {
    var started := ShaderStart(env, s);
    started.(device := Forward(started.device, started.shaderFlags))
  }

  lemma ExtendsTransitive(a: DeviceState, b: DeviceState, c: DeviceState)
    requires Extends(a, b) && Extends(b, c)
    ensures Extends(a, c)
  {
    assert c.ops[..|a.ops|] == c.ops[..|b.ops|][..|a.ops|];
    assert c.draws[..|a.draws|] == c.draws[..|b.draws|][..|a.draws|];
  }

  /** Leave through `shader_guard`: unbind on the way out. */
  function Exit(s: State, t: State, hr: HResult): (r: Drawn)
    requires Extends(s.device, t.device)
    ensures !r.state.usingShader && r.hr == hr
    ensures Synced(t) ==> Synced(r.state)
    ensures Extends(s.device, r.state.device)
    ensures r.state.shaderFlags == t.shaderFlags && r.state.device.zwrite == t.device.zwrite
  {
    var e := ShaderEnd(t);
    ExtendsTransitive(s.device, t.device, e.device);
    Drawn(e, hr)
  }

  /** The back-buffer pass after a successful depth pass, with the saved flags back. */
  function ColorPass(env: Env, s: State, depth: State): (r: State)
    requires Extends(s.device, depth.device)
    ensures Synced(depth) ==> Synced(r)
    ensures Extends(s.device, r.device)
    ensures r.shaderFlags == s.shaderFlags && r.device.zwrite == depth.device.zwrite
  {
    var p := Pass(env, depth.(shaderFlags := s.shaderFlags));
    ExtendsTransitive(s.device, depth.device, p.device);
    p
  }

  /** `run_d3d_trampoline` as written. `first` and `second` are what the game's draw call
      returns on its first and second forwarding. When the depth pass fails, its result is
      returned before `shader_flags` is restored, so DepthMap stays set. */
  function RunDrawAsWritten(env: Env, s: State, first: HResult, second: HResult): (r: Drawn)
    ensures !r.state.usingShader
    ensures Synced(s) ==> Synced(r.state)
    ensures Extends(s.device, r.state.device)
    ensures r.state.shaderFlags == if !SinglePass(env, s) && Failed(first) then s.shaderFlags | DepthMap else s.shaderFlags
  {
    if SinglePass(env, s) then Exit(s, Pass(env, s), first)
    else
      var depth := DepthPass(env, s);
      if Failed(first) then Exit(s, depth, first)
      else Exit(s, ColorPass(env, s, depth), second)
  }

  /** `run_d3d_trampoline` with the flags restored on every exit, as the save of
      `old_flags` intends. */
  function RunDraw(env: Env, s: State, first: HResult, second: HResult): (r: Drawn)
    ensures !r.state.usingShader
    ensures Synced(s) ==> Synced(r.state)
    ensures Extends(s.device, r.state.device)
    ensures r.state.shaderFlags == s.shaderFlags
    ensures r.state.device.zwrite == s.device.zwrite
  {
    if SinglePass(env, s) then Exit(s, Pass(env, s), first)
    else
      var depth := DepthPass(env, s).(shaderFlags := s.shaderFlags);
      if Failed(first) then Exit(s, depth, first)
      else Exit(s, ColorPass(env, s, depth), second)
  }

  /** With depth writes off or depth disabled, the draw is forwarded exactly once, with the
      flags and render state as they were, and its result is returned. */
  lemma SinglePassDrawsOnce(env: Env, s: State, first: HResult, second: HResult)
    requires SinglePass(env, s)
    ensures var r := RunDraw(env, s, first, second);
            && r.hr == first
            && |r.state.device.draws| == |s.device.draws| + 1
            && var call := r.state.device.draws[|s.device.draws|];
               call.flags == s.shaderFlags && call.zwrite == s.device.zwrite && call.target == s.device.target
  {
  }

  /** Otherwise the first forwarding renders depth: DepthMap added, depth writes off, the
      depth surface as target. Afterwards the back buffer and depth writes are restored. A
      failed first result is returned without a second forwarding; otherwise the draw is
      forwarded again with the original flags into the back buffer. */
  lemma TwoPassDraws(env: Env, s: State, first: HResult, second: HResult)
    requires !SinglePass(env, s)
    ensures var r := RunDraw(env, s, first, second);
            var n := |s.device.draws|;
            && |r.state.device.draws| == n + (if Failed(first) then 1 else 2)
            && r.state.device.draws[n].flags == s.shaderFlags | DepthMap
            && r.state.device.draws[n].zwrite == 0 && r.state.device.draws[n].target == DepthSurface
            && r.state.device.target == Backbuffer
            && r.hr == (if Failed(first) then first else second)
            && (!Failed(first) ==>
                  && r.state.device.draws[n + 1].flags == s.shaderFlags
                  && r.state.device.draws[n + 1].zwrite == s.device.zwrite
                  && r.state.device.draws[n + 1].target == Backbuffer)
  {
    var n := |s.device.draws|;
    var depth := DepthPass(env, s);
    if !Failed(first) {
      var p := Pass(env, depth.(shaderFlags := s.shaderFlags));
      assert p.device.draws[..n + 1] == depth.device.draws;
    }
  }

  /** The two definitions differ only on the failed depth pass, and there only in the flags
      left behind. */
  lemma AsWrittenDiffersOnlyInFlags(env: Env, s: State, first: HResult, second: HResult)
    ensures var w := RunDrawAsWritten(env, s, first, second);
            var r := RunDraw(env, s, first, second);
            w.hr == r.hr && w.state.(shaderFlags := r.state.shaderFlags) == r.state
  {
  }

  /** The leak: a failed depth pass leaves DepthMap in `shader_flags` even though it was
      clear before the draw. */
  lemma DepthMapLeaks(env: Env, s: State, first: HResult, second: HResult)
    requires !SinglePass(env, s) && Failed(first) && !Has(s.shaderFlags, DepthMap)
    ensures Has(RunDrawAsWritten(env, s, first, second).state.shaderFlags, DepthMap)
    ensures !Has(RunDraw(env, s, first, second).state.shaderFlags, DepthMap)
  {
  }

  /** Once leaked, DepthMap is never removed by a later draw: a successful two-pass draw
      restores the saved flags, which now contain it. */
  lemma DepthMapSticks(env: Env, s: State, first: HResult, second: HResult)
    requires Has(s.shaderFlags, DepthMap)
    ensures Has(RunDrawAsWritten(env, s, first, second).state.shaderFlags, DepthMap)
  {
  }

  /** A concrete case: a state with the default flags and depth writes on, whose depth pass
      fails with `E_FAIL`. */
  lemma DepthMapLeakExample(env: Env, shaders: Shaders, fs: Fs)
    requires !env.noDepth
    ensures var s := Initial(shaders, fs, 1);
            var r := RunDrawAsWritten(env, s, -0x7fff_bffb, 0);
            && s.shaderFlags == DefaultFlags && !Has(s.shaderFlags, DepthMap)
            && r.state.shaderFlags == DefaultFlags | DepthMap
  {
    DepthMapLeaks(env, Initial(shaders, fs, 1), -0x7fff_bffb, 0);
  }
}
