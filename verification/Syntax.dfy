/** The statements and expressions the control-flow analysers look at.  Nodes keep
    exactly what the analysers distinguish; everything else about an expression
    (operators, names, literals) is left to the other modules. */
module Syntax {
  import opened Options

  datatype Expr =
    | Atom                                                      // a leaf: name, literal, `this`
    | FunctionLike(heads: seq<Expr>)                            // nested function or class: not entered, but the
                                                                // heritage and computed names are evaluated here
    | SuperCall(args: seq<Expr>)                                // `super(...)`
    | Call(callee: Expr, args: seq<Expr>)
    | Conditional(cond: Expr, whenTrue: Expr, whenFalse: Expr)
    | Logical(left: Expr, right: Expr)                          // `&&`, `||`, `??`
    | Skipping(first: Expr, links: seq<Link>)                   // optional chain, logical assignment, default value
    | Compound(parts: seq<Expr>)                                // any other expression: parts in order

  /** What is evaluated together unless the rest is skipped: the parts of a chain between one
      `?.` and the next, the right side of `&&=`, `||=` or `??=`, the default of a binding. */
  datatype Link = Link(parts: seq<Expr>)

  datatype Stmt =
    | Simple(e: Expr)                                           // expression statement, declaration, ...
    | Var(decls: seq<Expr>)                                     // variable statement
    | Block(stmts: seq<Stmt>)
    | If(cond: Expr, thn: Stmt, els: Option<Stmt>)
    | Switch(head: Expr, clauses: seq<Clause>)
    | Try(block: seq<Stmt>, handler: Handler, finalizer: OptBlock)
    | Return(arg: Option<Expr>)
    | Throw(thrown: Expr)
    | Break                                                     // unlabelled
    | Continue                                                  // unlabelled
    | Loop(header: Header, body: Stmt)                          // for, for-in, for-of, while
    | DoWhile(body: Stmt, test: Expr)
    | Labeled(body: Stmt)

  /** What is evaluated before the first round, before leaving or going on, on going on, and
      after a round; empty where the loop has no such part.  The test of for-in and for-of is
      asking for the next element, which only going on binds. */
  datatype Header = Header(init: seq<Expr>, test: seq<Expr>, binding: seq<Expr>, step: seq<Expr>)

  /** The catch clause, when there is one, with what its binding evaluates. */
  datatype Handler = NoCatch | Catch(binding: seq<Expr>, body: seq<Stmt>)

  /** The block of a finally clause, when there is one. */
  datatype OptBlock = NoBlock | SomeBlock(body: seq<Stmt>)

  datatype Clause =
    | Case(test: Expr, body: seq<Stmt>)
    | Default(body: seq<Stmt>)

  predicate HasDefault(clauses: seq<Clause>) {
    exists c :: c in clauses && c.Default?
  }

  /** The case labels, in source order. */
  function Tests(clauses: seq<Clause>): seq<Expr> {
    if clauses == [] then []
    else (if clauses[0].Case? then [clauses[0].test] else []) + Tests(clauses[1..])
  }
}
