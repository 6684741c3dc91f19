/**
 The gssx types as the Rust crates write them (rust/gssproxy-proto/src/gssx.rs and
 proc.rs), field by field in the order of their encode functions, and their agreement
 with the types of the C code.
 */
module RustTypes {
  import opened SeqLib
  import opened Xdr
  import Gssx

  const BYTES := Opaque(0xFFFF_FFFF)  // GssxBuffer, GssxOid, OctetString, Utf8String
  const GSSX_OPTION := Struct([BYTES, BYTES])
  const GSSX_MECH_ATTR := Struct([BYTES, BYTES, BYTES, BYTES, Array(GSSX_OPTION)])
  const GSSX_MECH_INFO := Struct([
    BYTES, Array(BYTES), Array(BYTES), Array(BYTES), Array(BYTES), Array(BYTES), BYTES, BYTES, BYTES,
    Array(GSSX_OPTION)])
  const GSSX_NAME_ATTR := Struct([BYTES, BYTES, Array(GSSX_OPTION)])
  const GSSX_STATUS := Struct([Hyper, BYTES, Hyper, BYTES, BYTES, BYTES, Array(GSSX_OPTION)])
  const GSSX_CALL_CTX := Struct([BYTES, BYTES, Array(GSSX_OPTION)])
  const GSSX_NAME := Struct([BYTES, BYTES, BYTES, BYTES, Array(GSSX_NAME_ATTR), Array(GSSX_OPTION)])
  const GSSX_CRED_ELEMENT := Struct([GSSX_NAME, BYTES, Enum, Hyper, Hyper, Array(GSSX_OPTION)])
  const GSSX_CRED := Struct([GSSX_NAME, Array(GSSX_CRED_ELEMENT), BYTES, Bool])
  const GSSX_CTX := Struct([
    BYTES, BYTES, Bool, BYTES, GSSX_NAME, GSSX_NAME, Hyper, Hyper, Bool, Bool, Array(GSSX_OPTION)])
  const GSSX_HANDLE := Union(1, GSSX_CRED, 0, GSSX_CTX, Some(BYTES))
  const GSSX_CB := Struct([Hyper, BYTES, Hyper, BYTES, BYTES])

  /** The argument that the Rust server decodes for a procedure. */
  function Arg(proc: nat): Ty
    requires Gssx.GSSX_PROC_MIN <= proc <= Gssx.GSSX_PROC_MAX
  {
    match proc
    case 1 => Struct([GSSX_CALL_CTX])
    case 2 => Struct([GSSX_CALL_CTX, Array(GSSX_OPTION)])
    case 3 => Struct([GSSX_CALL_CTX, GSSX_NAME, BYTES, Array(GSSX_NAME_ATTR), Array(GSSX_OPTION)])
    case 4 => Struct([GSSX_CALL_CTX, GSSX_CRED, Enum, Array(GSSX_OPTION)])
    case 5 => Struct([GSSX_CALL_CTX, BYTES, Array(GSSX_OPTION)])
    case 6 => Struct([
      GSSX_CALL_CTX, Optional(GSSX_CRED), Bool, Optional(GSSX_NAME), Hyper, Array(BYTES), Enum, Hyper, Hyper,
      Array(GSSX_OPTION)])
    case 7 => Struct([GSSX_CALL_CTX, GSSX_CRED, Enum, BYTES, Bool, Bool, Array(GSSX_OPTION)])
    case 8 => Struct([
      GSSX_CALL_CTX, Optional(GSSX_CTX), Optional(GSSX_CRED), Optional(GSSX_NAME), BYTES, Hyper, Hyper,
      Optional(GSSX_CB), Optional(BYTES), Array(GSSX_OPTION)])
    case 9 => Struct([
      GSSX_CALL_CTX, Optional(GSSX_CTX), Optional(GSSX_CRED), BYTES, Optional(GSSX_CB), Bool, Array(GSSX_OPTION)])
    case 10 => Struct([GSSX_CALL_CTX, GSSX_HANDLE])
    case 11 => Struct([GSSX_CALL_CTX, GSSX_CTX, Hyper, BYTES])
    case 12 => Struct([GSSX_CALL_CTX, GSSX_CTX, BYTES, BYTES])
    case 13 => Struct([GSSX_CALL_CTX, GSSX_CTX, Bool, Array(BYTES), Hyper])
    case 14 => Struct([GSSX_CALL_CTX, GSSX_CTX, Array(BYTES), Hyper])
    case _ => Struct([GSSX_CALL_CTX, GSSX_CTX, Bool, Hyper, Hyper])
  }

  /** The result that the Rust client decodes. */
  function Res(proc: nat): Ty
    requires Gssx.GSSX_PROC_MIN <= proc <= Gssx.GSSX_PROC_MAX
  {
    match proc
    case 1 => Struct([
      GSSX_STATUS, Array(GSSX_MECH_INFO), Array(GSSX_MECH_ATTR), Array(BYTES), Array(GSSX_OPTION)])
    case 2 => Struct([GSSX_STATUS, BYTES, Array(GSSX_OPTION)])
    case 3 => Struct([GSSX_STATUS, Optional(GSSX_NAME), Array(GSSX_OPTION)])
    case 4 => Struct([GSSX_STATUS, Enum, Optional(BYTES), Array(GSSX_OPTION)])
    case 5 => Struct([GSSX_STATUS, Optional(GSSX_CRED), Array(GSSX_OPTION)])
    case 6 => Struct([GSSX_STATUS, Optional(GSSX_CRED), Array(GSSX_OPTION)])
    case 7 => Struct([GSSX_STATUS, Array(BYTES), Enum, Array(GSSX_OPTION)])
    case 8 => Struct([GSSX_STATUS, Optional(GSSX_CTX), Optional(BYTES), Array(GSSX_OPTION)])
    case 9 => Struct([GSSX_STATUS, Optional(GSSX_CTX), Optional(BYTES), Optional(GSSX_CRED), Array(GSSX_OPTION)])
    case 10 => Struct([GSSX_STATUS])
    case 11 => Struct([GSSX_STATUS, Optional(GSSX_CTX), BYTES, Optional(Hyper)])
    case 12 => Struct([GSSX_STATUS, Optional(GSSX_CTX), Optional(Hyper)])
    case 13 => Struct([GSSX_STATUS, Optional(GSSX_CTX), Array(BYTES), Optional(Bool), Optional(Hyper)])
    case 14 => Struct([GSSX_STATUS, Optional(GSSX_CTX), Array(BYTES), Optional(Bool), Optional(Hyper)])
    case _ => Struct([GSSX_STATUS, Hyper])
  }

  lemma {:induction false} PartsAgree()
    ensures BYTES == Gssx.OCTET_STRING && GSSX_OPTION == Gssx.GSS_OPTION
    ensures GSSX_MECH_ATTR == Gssx.MECH_ATTR && GSSX_MECH_INFO == Gssx.MECH_INFO && GSSX_NAME_ATTR == Gssx.NAME_ATTR
    ensures GSSX_STATUS == Gssx.STATUS && GSSX_CALL_CTX == Gssx.CALL_CTX && GSSX_NAME == Gssx.NAME
    ensures GSSX_CRED == Gssx.CRED && GSSX_CTX == Gssx.CTX && GSSX_HANDLE == Gssx.HANDLE && GSSX_CB == Gssx.CB
  {
  }

  /** For every procedure, the Rust and the C code put the same types on the wire, in both directions. */
  lemma {:induction false} TypesAgree(proc: nat)
    requires Gssx.GSSX_PROC_MIN <= proc <= Gssx.GSSX_PROC_MAX
    ensures Arg(proc) == Gssx.ClientArg(proc) && Res(proc) == Gssx.ClientRes(proc)
  {
    PartsAgree();
  }
}
