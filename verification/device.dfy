/** The abstract Direct3D 9 device and shader compiler the core talks to. Their results
    are inputs of the model: the compiler and shader creation are uninterpreted functions
    carried by a `Platform` record (see the registry), and only the shapes of their
    requests and replies are fixed here. */
module Device {
  import opened Wrappers
  import opened FileSystem

  const U32Limit: int := 0x1_0000_0000

  /** A Win32 `HRESULT`: a signed 32-bit status code. */
  type HResult = x: int | -0x8000_0000 <= x < 0x8000_0000

  /** The `FAILED` macro: the sign bit is set. */
  predicate Failed(hr: HResult) {
    hr < 0
  }

  datatype Stage = Vertex | Pixel

  /** A shader interface: null, or a live device object. */
  datatype Shader = NullShader | ShaderObject(id: nat)

  /** One `D3DXMACRO` entry: a definition, or the all-null terminator. */
  datatype Macro = Define(name: string, definition: string) | EndOfList

  /** The arguments of one `D3DXCompileShader` call. */
  datatype CompileRequest = CompileRequest(
    source: Bytes,
    macros: seq<Macro>,
    entry: string,
    profile: string,
    flags: nat)

  /** The status code, the output buffer and the error buffer (null or its text). */
  datatype CompileReply = CompileReply(hr: HResult, bytecode: Bytes, errors: Option<string>)

  /** The status code and the created object of `CreateVertexShader`/`CreatePixelShader`. */
  datatype DeviceReply = DeviceReply(hr: HResult, id: nat)
}
