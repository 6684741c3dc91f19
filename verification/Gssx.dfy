/**
 The gssx protocol: every data type that rpcgen/gss_proxy_xdr.c encodes, in the
 field order it encodes them, and the two dispatch tables (daemon and client)
 from procedure numbers to argument and result types.
 */
module Gssx {
  import opened SeqLib
  import opened Xdr

  const OCTET_STRING := Opaque(0xFFFF_FFFF)  // also utf8string, gssx_buffer and gssx_OID
  const OID_SET := Array(OCTET_STRING)
  const GSS_OPTION := Struct([OCTET_STRING, OCTET_STRING])  // option, value
  const OPTIONS := Array(GSS_OPTION)
  const MECH_ATTR := Struct([
    OCTET_STRING, OCTET_STRING, OCTET_STRING, OCTET_STRING,  // attr, name, short_desc, long_desc
    OPTIONS])  // extensions
  const MECH_INFO := Struct([
    OCTET_STRING,  // mech
    // name_types, mech_attrs, known_mech_attrs, cred_options, sec_ctx_options
    OID_SET, OID_SET, OID_SET, OID_SET, OID_SET,
    // saslname_sasl_mech_name, saslname_mech_name, saslname_mech_desc
    OCTET_STRING, OCTET_STRING, OCTET_STRING,
    OPTIONS])  // extensions
  const NAME_ATTR := Struct([OCTET_STRING, OCTET_STRING, OPTIONS])  // attr, value, extensions
  const STATUS := Struct([
    Hyper, OCTET_STRING, Hyper,  // major_status, mech, minor_status
    OCTET_STRING, OCTET_STRING,  // major_status_string, minor_status_string
    OCTET_STRING, OPTIONS])  // server_ctx, options
  const CALL_CTX := Struct([OCTET_STRING, OCTET_STRING, OPTIONS])  // locale, server_ctx, options
  const NAME := Struct([
    OCTET_STRING, OCTET_STRING,  // display_name, name_type
    OCTET_STRING, OCTET_STRING,  // exported_name, exported_composite_name
    Array(NAME_ATTR), OPTIONS])  // name_attributes, extensions
  // MN, mech, cred_usage, initiator_time_rec, acceptor_time_rec, options
  const CRED_ELEMENT := Struct([NAME, OCTET_STRING, Enum, Hyper, Hyper, OPTIONS])
  // desired_name, elements, cred_handle_reference, needs_release
  const CRED := Struct([NAME, Array(CRED_ELEMENT), OCTET_STRING, Bool])
  const CTX := Struct([
    // exported_context_token, state, needs_release, mech
    OCTET_STRING, OCTET_STRING, Bool, OCTET_STRING,
    NAME, NAME, Hyper, Hyper,  // src_name, targ_name, lifetime, ctx_flags
    Bool, Bool, OPTIONS])  // locally_initiated, open, options
  const HANDLE := Union(1, CRED, 0, CTX, Some(OCTET_STRING))  // cred_info, sec_ctx_info, extensions
  // initiator_addrtype, initiator_address, acceptor_addrtype, acceptor_address, application_data
  const CB := Struct([Hyper, OCTET_STRING, Hyper, OCTET_STRING, OCTET_STRING])

  const ARG_RELEASE_HANDLE := Struct([CALL_CTX, HANDLE])
  const RES_RELEASE_HANDLE := Struct([STATUS])
  const ARG_INDICATE_MECHS := Struct([CALL_CTX])
  const RES_INDICATE_MECHS := Struct([STATUS, Array(MECH_INFO), Array(MECH_ATTR), Array(OCTET_STRING), OPTIONS])
  const ARG_IMPORT_AND_CANON_NAME := Struct([CALL_CTX, NAME, OCTET_STRING, Array(NAME_ATTR), OPTIONS])
  const RES_IMPORT_AND_CANON_NAME := Struct([STATUS, Optional(NAME), OPTIONS])
  const ARG_GET_CALL_CONTEXT := Struct([CALL_CTX, OPTIONS])
  const RES_GET_CALL_CONTEXT := Struct([STATUS, OCTET_STRING, OPTIONS])
  const ARG_ACQUIRE_CRED := Struct([
    // call_ctx, input_cred_handle, add_cred_to_input_handle, desired_name, time_req
    CALL_CTX, Optional(CRED), Bool, Optional(NAME), Hyper,
    // desired_mechs, cred_usage, initiator_time_req, acceptor_time_req, options
    OID_SET, Enum, Hyper, Hyper, OPTIONS])
  const RES_ACQUIRE_CRED := Struct([STATUS, Optional(CRED), OPTIONS])
  const ARG_EXPORT_CRED := Struct([CALL_CTX, CRED, Enum, OPTIONS])
  const RES_EXPORT_CRED := Struct([STATUS, Enum, Optional(OCTET_STRING), OPTIONS])
  const ARG_IMPORT_CRED := Struct([CALL_CTX, OCTET_STRING, OPTIONS])
  const RES_IMPORT_CRED := Struct([STATUS, Optional(CRED), OPTIONS])
  const ARG_STORE_CRED := Struct([CALL_CTX, CRED, Enum, OCTET_STRING, Bool, Bool, OPTIONS])
  const RES_STORE_CRED := Struct([STATUS, OID_SET, Enum, OPTIONS])
  const ARG_INIT_SEC_CONTEXT := Struct([
    CALL_CTX, Optional(CTX), Optional(CRED), Optional(NAME),  // call_ctx, context_handle, cred_handle, target_name
    OCTET_STRING, Hyper, Hyper,  // mech_type, req_flags, time_req
    Optional(CB), Optional(OCTET_STRING), OPTIONS])  // input_cb, input_token, options
  const RES_INIT_SEC_CONTEXT := Struct([STATUS, Optional(CTX), Optional(OCTET_STRING), OPTIONS])
  const ARG_ACCEPT_SEC_CONTEXT := Struct([
    CALL_CTX, Optional(CTX), Optional(CRED), OCTET_STRING,  // call_ctx, context_handle, cred_handle, input_token
    Optional(CB), Bool, OPTIONS])  // input_cb, ret_deleg_cred, options
  const RES_ACCEPT_SEC_CONTEXT := Struct([STATUS, Optional(CTX), Optional(OCTET_STRING), Optional(CRED), OPTIONS])
  const ARG_GET_MIC := Struct([CALL_CTX, CTX, Hyper, OCTET_STRING])
  const RES_GET_MIC := Struct([STATUS, Optional(CTX), OCTET_STRING, Optional(Hyper)])
  const ARG_VERIFY_MIC := Struct([CALL_CTX, CTX, OCTET_STRING, OCTET_STRING])
  const RES_VERIFY_MIC := Struct([STATUS, Optional(CTX), Optional(Hyper)])
  const ARG_WRAP := Struct([CALL_CTX, CTX, Bool, Array(OCTET_STRING), Hyper])
  const RES_WRAP := Struct([STATUS, Optional(CTX), Array(OCTET_STRING), Optional(Bool), Optional(Hyper)])
  const ARG_UNWRAP := Struct([CALL_CTX, CTX, Array(OCTET_STRING), Hyper])
  const RES_UNWRAP := Struct([STATUS, Optional(CTX), Array(OCTET_STRING), Optional(Bool), Optional(Hyper)])
  const ARG_WRAP_SIZE_LIMIT := Struct([CALL_CTX, CTX, Bool, Hyper, Hyper])
  const RES_WRAP_SIZE_LIMIT := Struct([STATUS, Hyper])
  const VOID := Struct([])

  const GSSX_PROC_MIN := 1
  const GSSX_PROC_MAX := 15

  /** One row of the daemon's table: its own procedure number, and the argument and result codecs. */
  datatype Row = Row(proc: nat, arg: Ty, res: Ty)

  /** gp_xdr_set. */
  function DaemonRow(i: nat): Row
    requires i <= GSSX_PROC_MAX
  {
    match i
    case 0 => Row(0, VOID, VOID)
    case 1 => Row(1, ARG_INDICATE_MECHS, RES_INDICATE_MECHS)
    case 2 => Row(2, ARG_GET_CALL_CONTEXT, RES_GET_CALL_CONTEXT)
    case 3 => Row(3, ARG_IMPORT_AND_CANON_NAME, RES_IMPORT_AND_CANON_NAME)
    case 4 => Row(4, ARG_EXPORT_CRED, RES_EXPORT_CRED)
    case 5 => Row(5, ARG_IMPORT_CRED, RES_IMPORT_CRED)
    case 6 => Row(6, ARG_ACQUIRE_CRED, RES_ACQUIRE_CRED)
    case 7 => Row(7, ARG_STORE_CRED, RES_STORE_CRED)
    case 8 => Row(8, ARG_INIT_SEC_CONTEXT, RES_INIT_SEC_CONTEXT)
    case 9 => Row(9, ARG_ACCEPT_SEC_CONTEXT, RES_ACCEPT_SEC_CONTEXT)
    case 10 => Row(10, ARG_RELEASE_HANDLE, RES_RELEASE_HANDLE)
    case 11 => Row(11, ARG_GET_MIC, RES_GET_MIC)
    case 12 => Row(12, ARG_VERIFY_MIC, RES_VERIFY_MIC)
    case 13 => Row(13, ARG_WRAP, RES_WRAP)
    case 14 => Row(14, ARG_UNWRAP, RES_UNWRAP)
    case _ => Row(15, ARG_WRAP_SIZE_LIMIT, RES_WRAP_SIZE_LIMIT)
  }

  /** gpm_xdr_set, the client's argument column... */
  function ClientArg(proc: nat): Ty
    requires proc <= GSSX_PROC_MAX
  {
    match proc
    case 0 => VOID
    case 1 => ARG_INDICATE_MECHS
    case 2 => ARG_GET_CALL_CONTEXT
    case 3 => ARG_IMPORT_AND_CANON_NAME
    case 4 => ARG_EXPORT_CRED
    case 5 => ARG_IMPORT_CRED
    case 6 => ARG_ACQUIRE_CRED
    case 7 => ARG_STORE_CRED
    case 8 => ARG_INIT_SEC_CONTEXT
    case 9 => ARG_ACCEPT_SEC_CONTEXT
    case 10 => ARG_RELEASE_HANDLE
    case 11 => ARG_GET_MIC
    case 12 => ARG_VERIFY_MIC
    case 13 => ARG_WRAP
    case 14 => ARG_UNWRAP
    case _ => ARG_WRAP_SIZE_LIMIT
  }

  /** ...and its result column. */
  function ClientRes(proc: nat): Ty
    requires proc <= GSSX_PROC_MAX
  {
    match proc
    case 0 => VOID
    case 1 => RES_INDICATE_MECHS
    case 2 => RES_GET_CALL_CONTEXT
    case 3 => RES_IMPORT_AND_CANON_NAME
    case 4 => RES_EXPORT_CRED
    case 5 => RES_IMPORT_CRED
    case 6 => RES_ACQUIRE_CRED
    case 7 => RES_STORE_CRED
    case 8 => RES_INIT_SEC_CONTEXT
    case 9 => RES_ACCEPT_SEC_CONTEXT
    case 10 => RES_RELEASE_HANDLE
    case 11 => RES_GET_MIC
    case 12 => RES_VERIFY_MIC
    case 13 => RES_WRAP
    case 14 => RES_UNWRAP
    case _ => RES_WRAP_SIZE_LIMIT
  }

  /** The two dispatch tables agree on every procedure, and every daemon row sits at its own number. */
  lemma {:induction false} TablesAgree(proc: nat)
    requires proc <= GSSX_PROC_MAX
    ensures DaemonRow(proc) == Row(proc, ClientArg(proc), ClientRes(proc))
  {
  }
}
