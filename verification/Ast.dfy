/** The AST as the compiler keeps it (src/private/ast_types.h): nodes in arena memory that
    point at each other.  A pointer is an address in that memory; the union of a node is
    its child pointers in declaration order, its tokens and its flags. */
module Ast {

  type Ptr = nat
  const NULL: Ptr := 0

  datatype Kind =
    | ERROR | BINOP | UOP | ADDR_OF | DEREF | IDENTIF | VAR_DECL | NUM_LIT | STR_LIT | CHAR_LIT
    | BOOL_LIT | ARRAY_LIT | IF | BLOCK | STRUCT | UNION | ENUM | ENUM_MEMBER | DEFER | FOR | WHILE
    | FUNC | FUNC_CALL | PARAM | RET | INDEX | MEMBER | SWITCH | CASE | EXTERN | USE | NULL_LIT
    | BREAK | CONTINUE | CAST | SIZEOF | PROGRAM

  type byte = x: nat | x < 0x100
  type u32 = x: nat | x < 0x1_0000_0000

  /** A token: its type, and its text (empty when the source has no start pointer). */
  datatype Token = Token(ty: nat, text: seq<byte>)

  datatype DataType = DataType(
    name: Token, ptrDepth: nat, arrayDimens: nat,
    isStatic: bool, isMut: bool, isThreadlocal: bool, isExtern: bool)

  /** One node.  `kids` are the child pointers of the union, in declaration order; `tok` is
      its operator, name, literal or path, `alias` the alias of a use statement, `flags` its
      booleans in declaration order, `dtype` its declared type. */
  datatype Cell = Cell(
    kind: Kind, next: Ptr, kids: seq<Ptr>,
    tok: Token, alias: Token, flags: seq<bool>, dtype: DataType, hash: u32)

  type Memory = map<Ptr, Cell>

  function Kid(c: Cell, i: nat): Ptr {
    if i < |c.kids| then c.kids[i] else NULL
  }

  function Flag(c: Cell, i: nat): bool {
    i < |c.flags| && c.flags[i]
  }

  datatype Option<+T> = None | Some(value: T)

  /** The nodes of a sibling list; None when the list does not end within the memory. */
  function Chain(mem: Memory, head: Ptr, fuel: nat): (r: Option<seq<Ptr>>)
    ensures r.Some? ==> forall i :: 0 <= i < |r.value| ==> r.value[i] != NULL && r.value[i] in mem
    decreases fuel
  {
    if head == NULL then Some([])
    else if fuel == 0 || head !in mem then None
    else match Chain(mem, mem[head].next, fuel - 1)
      case None => None
      case Some(tail) => Some([head] + tail)
  }

  function ListAt(mem: Memory, head: Ptr): Option<seq<Ptr>> {
    Chain(mem, head, |mem|)
  }

  lemma {:induction false} Assoc<T>(a: seq<T>, b: seq<T>, c: seq<T>)
    ensures a + (b + c) == (a + b) + c
  {
  }
}
