/**
 The master byte code table (src/ejsByteCodeTable.h): stack effect and operand
 kinds of every opcode, in opcode order (src/ejsByteCode.h).
 */
module OpTable {
  datatype Kind =
    | BYTE | DOUBLE | NUM | STRING | GLOBAL | SLOT | JMP | JMP8 | INIT_DEFAULT | INIT_DEFAULT8
    | ARGC | ARGC2 | ARGC3 | NEW_ARRAY | NEW_OBJECT

  datatype OpInfo = OpInfo(effect: int, args: seq<Kind>)

  /** EBC_POPN: the first operand says how many items are popped. */
  const POPN: int := 101

  const OP_POP_ITEMS: nat := 148
  const OP_RETURN: nat := 193
  const OP_RETURN_VALUE: nat := 194

  const OPS_000: seq<OpInfo> := [
    OpInfo(-1, []),  // ADD
    OpInfo(0, [STRING]),  // ADD_NAMESPACE
    OpInfo(-1, []),  // ADD_NAMESPACE_REF
    OpInfo(-1, []),  // AND
    OpInfo(-1, []),  // ATTENTION
    OpInfo(-1, [JMP]),  // BRANCH_EQ
    OpInfo(-1, [JMP]),  // BRANCH_STRICTLY_EQ
    OpInfo(-1, [JMP]),  // BRANCH_FALSE
    OpInfo(-1, [JMP]),  // BRANCH_GE
    OpInfo(-1, [JMP]),  // BRANCH_GT
    OpInfo(-1, [JMP]),  // BRANCH_LE
    OpInfo(-1, [JMP]),  // BRANCH_LT
    OpInfo(-1, [JMP]),  // BRANCH_NE
    OpInfo(-1, [JMP]),  // BRANCH_STRICTLY_NE
    OpInfo(-1, [JMP]),  // BRANCH_NULL
    OpInfo(-1, [JMP])  // BRANCH_NOT_ZERO
  ]

  const OPS_016: seq<OpInfo> := [
    OpInfo(-1, [JMP]),  // BRANCH_TRUE
    OpInfo(-1, [JMP]),  // BRANCH_UNDEFINED
    OpInfo(-1, [JMP]),  // BRANCH_ZERO
    OpInfo(-1, [JMP8]),  // BRANCH_FALSE_8
    OpInfo(-1, [JMP8]),  // BRANCH_TRUE_8
    OpInfo(0, [NUM, STRING]),  // BREAKPOINT
    OpInfo(-2, [ARGC]),  // CALL
    OpInfo(0, [SLOT, ARGC]),  // CALL_GLOBAL_SLOT
    OpInfo(-1, [SLOT, ARGC]),  // CALL_OBJ_SLOT
    OpInfo(0, [SLOT, ARGC]),  // CALL_THIS_SLOT
    OpInfo(0, [SLOT, NUM, ARGC]),  // CALL_BLOCK_SLOT
    OpInfo(-1, [SLOT, ARGC]),  // CALL_OBJ_INSTANCE_SLOT
    OpInfo(-1, [SLOT, NUM, ARGC]),  // CALL_OBJ_STATIC_SLOT
    OpInfo(0, [SLOT, NUM, ARGC]),  // CALL_THIS_STATIC_SLOT
    OpInfo(-1, [STRING, STRING, ARGC]),  // CALL_OBJ_NAME
    OpInfo(0, [STRING, STRING, ARGC])  // CALL_SCOPED_NAME
  ]

  const OPS_032: seq<OpInfo> := [
    OpInfo(0, [ARGC]),  // CALL_CONSTRUCTOR
    OpInfo(0, [STRING, STRING, ARGC]),  // CALL_NEXT_CONSTRUCTOR
    OpInfo(-1, []),  // CAST
    OpInfo(0, []),  // CAST_BOOLEAN
    OpInfo(0, []),  // CLOSE_BLOCK
    OpInfo(-1, []),  // COMPARE_EQ
    OpInfo(-1, []),  // COMPARE_STRICTLY_EQ
    OpInfo(-1, []),  // COMPARE_FALSE
    OpInfo(-1, []),  // COMPARE_GE
    OpInfo(-1, []),  // COMPARE_GT
    OpInfo(-1, []),  // COMPARE_LE
    OpInfo(-1, []),  // COMPARE_LT
    OpInfo(-1, []),  // COMPARE_NE
    OpInfo(-1, []),  // COMPARE_STRICTLY_NE
    OpInfo(-1, []),  // COMPARE_NULL
    OpInfo(-1, [])  // COMPARE_NOT_ZERO
  ]

  const OPS_048: seq<OpInfo> := [
    OpInfo(-1, []),  // COMPARE_TRUE
    OpInfo(-1, []),  // COMPARE_UNDEFINED
    OpInfo(-1, []),  // COMPARE_ZERO
    OpInfo(0, [GLOBAL]),  // DEFINE_CLASS
    OpInfo(0, [STRING, STRING]),  // DEFINE_FUNCTION
    OpInfo(-2, []),  // DELETE_NAME_EXPR
    OpInfo(-1, []),  // DELETE_SCOPED_NAME_EXPR
    OpInfo(-1, []),  // DIV
    OpInfo(1, []),  // DUP
    OpInfo(2, []),  // DUP2
    OpInfo(1, [BYTE]),  // DUP_STACK
    OpInfo(0, []),  // END_CODE
    OpInfo(0, []),  // END_EXCEPTION
    OpInfo(0, [JMP]),  // GOTO
    OpInfo(0, [JMP8]),  // GOTO_8
    OpInfo(0, [BYTE])  // INC
  ]

  const OPS_064: seq<OpInfo> := [
    OpInfo(0, [INIT_DEFAULT]),  // INIT_DEFAULT_ARGS
    OpInfo(0, [INIT_DEFAULT8]),  // INIT_DEFAULT_ARGS_8
    OpInfo(-1, []),  // INST_OF
    OpInfo(-1, []),  // IS_A
    OpInfo(1, []),  // LOAD_0
    OpInfo(1, []),  // LOAD_1
    OpInfo(1, []),  // LOAD_2
    OpInfo(1, []),  // LOAD_3
    OpInfo(1, []),  // LOAD_4
    OpInfo(1, []),  // LOAD_5
    OpInfo(1, []),  // LOAD_6
    OpInfo(1, []),  // LOAD_7
    OpInfo(1, []),  // LOAD_8
    OpInfo(1, []),  // LOAD_9
    OpInfo(1, [DOUBLE]),  // LOAD_DOUBLE
    OpInfo(1, [])  // LOAD_FALSE
  ]

  const OPS_080: seq<OpInfo> := [
    OpInfo(1, []),  // LOAD_GLOBAL
    OpInfo(1, [NUM]),  // LOAD_INT
    OpInfo(1, []),  // LOAD_M1
    OpInfo(1, [STRING]),  // LOAD_NAMESPACE
    OpInfo(1, []),  // LOAD_NULL
    OpInfo(1, [STRING]),  // LOAD_REGEXP
    OpInfo(1, [STRING]),  // LOAD_STRING
    OpInfo(1, []),  // LOAD_THIS
    OpInfo(1, []),  // LOAD_THIS_LOOKUP
    OpInfo(1, [NUM]),  // LOAD_THIS_BASE
    OpInfo(1, []),  // LOAD_TRUE
    OpInfo(1, []),  // LOAD_UNDEFINED
    OpInfo(1, [STRING]),  // LOAD_XML
    OpInfo(1, []),  // GET_LOCAL_SLOT_0
    OpInfo(1, []),  // GET_LOCAL_SLOT_1
    OpInfo(1, [])  // GET_LOCAL_SLOT_2
  ]

  const OPS_096: seq<OpInfo> := [
    OpInfo(1, []),  // GET_LOCAL_SLOT_3
    OpInfo(1, []),  // GET_LOCAL_SLOT_4
    OpInfo(1, []),  // GET_LOCAL_SLOT_5
    OpInfo(1, []),  // GET_LOCAL_SLOT_6
    OpInfo(1, []),  // GET_LOCAL_SLOT_7
    OpInfo(1, []),  // GET_LOCAL_SLOT_8
    OpInfo(1, []),  // GET_LOCAL_SLOT_9
    OpInfo(0, []),  // GET_OBJ_SLOT_0
    OpInfo(0, []),  // GET_OBJ_SLOT_1
    OpInfo(0, []),  // GET_OBJ_SLOT_2
    OpInfo(0, []),  // GET_OBJ_SLOT_3
    OpInfo(0, []),  // GET_OBJ_SLOT_4
    OpInfo(0, []),  // GET_OBJ_SLOT_5
    OpInfo(0, []),  // GET_OBJ_SLOT_6
    OpInfo(0, []),  // GET_OBJ_SLOT_7
    OpInfo(0, [])  // GET_OBJ_SLOT_8
  ]

  const OPS_112: seq<OpInfo> := [
    OpInfo(0, []),  // GET_OBJ_SLOT_9
    OpInfo(1, []),  // GET_THIS_SLOT_0
    OpInfo(1, []),  // GET_THIS_SLOT_1
    OpInfo(1, []),  // GET_THIS_SLOT_2
    OpInfo(1, []),  // GET_THIS_SLOT_3
    OpInfo(1, []),  // GET_THIS_SLOT_4
    OpInfo(1, []),  // GET_THIS_SLOT_5
    OpInfo(1, []),  // GET_THIS_SLOT_6
    OpInfo(1, []),  // GET_THIS_SLOT_7
    OpInfo(1, []),  // GET_THIS_SLOT_8
    OpInfo(1, []),  // GET_THIS_SLOT_9
    OpInfo(1, [STRING, STRING]),  // GET_SCOPED_NAME
    OpInfo(-1, []),  // GET_SCOPED_NAME_EXPR
    OpInfo(0, [STRING, STRING]),  // GET_OBJ_NAME
    OpInfo(-2, []),  // GET_OBJ_NAME_EXPR
    OpInfo(1, [SLOT, NUM])  // GET_BLOCK_SLOT
  ]

  const OPS_128: seq<OpInfo> := [
    OpInfo(1, [SLOT]),  // GET_GLOBAL_SLOT
    OpInfo(1, [SLOT]),  // GET_LOCAL_SLOT
    OpInfo(0, [SLOT]),  // GET_OBJ_SLOT
    OpInfo(1, [SLOT]),  // GET_THIS_SLOT
    OpInfo(0, [SLOT, NUM]),  // GET_TYPE_SLOT
    OpInfo(1, [SLOT, NUM]),  // GET_THIS_TYPE_SLOT
    OpInfo(-1, []),  // IN
    OpInfo(-1, []),  // LIKE
    OpInfo(0, []),  // LOGICAL_NOT
    OpInfo(-1, []),  // MUL
    OpInfo(0, []),  // NEG
    OpInfo(0, []),  // NEW
    OpInfo(1, [GLOBAL, NEW_ARRAY]),  // NEW_ARRAY
    OpInfo(1, [GLOBAL, NEW_OBJECT]),  // NEW_OBJECT
    OpInfo(0, []),  // NOP
    OpInfo(0, [])  // NOT
  ]

  const OPS_144: seq<OpInfo> := [
    OpInfo(0, [SLOT, NUM]),  // OPEN_BLOCK
    OpInfo(1, []),  // OPEN_WITH
    OpInfo(-1, []),  // OR
    OpInfo(-1, []),  // POP
    OpInfo(POPN, [BYTE]),  // POP_ITEMS
    OpInfo(1, []),  // PUSH_CATCH_ARG
    OpInfo(1, []),  // PUSH_RESULT
    OpInfo(-1, []),  // PUT_LOCAL_SLOT_0
    OpInfo(-1, []),  // PUT_LOCAL_SLOT_1
    OpInfo(-1, []),  // PUT_LOCAL_SLOT_2
    OpInfo(-1, []),  // PUT_LOCAL_SLOT_3
    OpInfo(-1, []),  // PUT_LOCAL_SLOT_4
    OpInfo(-1, []),  // PUT_LOCAL_SLOT_5
    OpInfo(-1, []),  // PUT_LOCAL_SLOT_6
    OpInfo(-1, []),  // PUT_LOCAL_SLOT_7
    OpInfo(-1, [])  // PUT_LOCAL_SLOT_8
  ]

  const OPS_160: seq<OpInfo> := [
    OpInfo(-1, []),  // PUT_LOCAL_SLOT_9
    OpInfo(-2, []),  // PUT_OBJ_SLOT_0
    OpInfo(-2, []),  // PUT_OBJ_SLOT_1
    OpInfo(-2, []),  // PUT_OBJ_SLOT_2
    OpInfo(-2, []),  // PUT_OBJ_SLOT_3
    OpInfo(-2, []),  // PUT_OBJ_SLOT_4
    OpInfo(-2, []),  // PUT_OBJ_SLOT_5
    OpInfo(-2, []),  // PUT_OBJ_SLOT_6
    OpInfo(-2, []),  // PUT_OBJ_SLOT_7
    OpInfo(-2, []),  // PUT_OBJ_SLOT_8
    OpInfo(-2, []),  // PUT_OBJ_SLOT_9
    OpInfo(-1, []),  // PUT_THIS_SLOT_0
    OpInfo(-1, []),  // PUT_THIS_SLOT_1
    OpInfo(-1, []),  // PUT_THIS_SLOT_2
    OpInfo(-1, []),  // PUT_THIS_SLOT_3
    OpInfo(-1, [])  // PUT_THIS_SLOT_4
  ]

  const OPS_176: seq<OpInfo> := [
    OpInfo(-1, []),  // PUT_THIS_SLOT_5
    OpInfo(-1, []),  // PUT_THIS_SLOT_6
    OpInfo(-1, []),  // PUT_THIS_SLOT_7
    OpInfo(-1, []),  // PUT_THIS_SLOT_8
    OpInfo(-1, []),  // PUT_THIS_SLOT_9
    OpInfo(-4, []),  // PUT_OBJ_NAME_EXPR
    OpInfo(-2, [STRING, STRING]),  // PUT_OBJ_NAME
    OpInfo(-1, [STRING, STRING]),  // PUT_SCOPED_NAME
    OpInfo(-3, []),  // PUT_SCOPED_NAME_EXPR
    OpInfo(-1, [SLOT, NUM]),  // PUT_BLOCK_SLOT
    OpInfo(-1, [SLOT]),  // PUT_GLOBAL_SLOT
    OpInfo(-1, [SLOT]),  // PUT_LOCAL_SLOT
    OpInfo(-2, [SLOT]),  // PUT_OBJ_SLOT
    OpInfo(-1, [SLOT]),  // PUT_THIS_SLOT
    OpInfo(-2, [SLOT, NUM]),  // PUT_TYPE_SLOT
    OpInfo(-1, [SLOT, NUM])  // PUT_THIS_TYPE_SLOT
  ]

  const OPS_192: seq<OpInfo> := [
    OpInfo(-1, []),  // REM
    OpInfo(0, []),  // RETURN
    OpInfo(-1, []),  // RETURN_VALUE
    OpInfo(-1, []),  // SAVE_RESULT
    OpInfo(-1, []),  // SHL
    OpInfo(-1, []),  // SHR
    OpInfo(0, []),  // SPREAD
    OpInfo(-1, []),  // SUB
    OpInfo(0, []),  // SUPER
    OpInfo(0, []),  // SWAP
    OpInfo(0, []),  // THROW
    OpInfo(-1, []),  // TYPE_OF
    OpInfo(-1, []),  // USHR
    OpInfo(-1, []),  // XOR
    OpInfo(0, []),  // CALL_FINALLY
    OpInfo(0, [])  // GOTO_FINALLY
  ]

  /** ejsOptable. */
  const OPTABLE: seq<OpInfo> :=
    OPS_000 + OPS_016 + OPS_032 + OPS_048 + OPS_064
    + OPS_080 + OPS_096 + OPS_112 + OPS_128 + OPS_144
    + OPS_160 + OPS_176 + OPS_192
}
