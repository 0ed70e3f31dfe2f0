/** The token-code table of the tokenizer: the `TokenType` enumeration, the map its
    static initializer builds from code to constant, and `valueOf(int)`. */
module Tokens {
  import opened Common

  /** An enumeration constant: its position in `values()` and its `value` field. */
  datatype TokenType = TokenType(ordinal: nat, value: int)

  /** Number of constants the enumeration declares. */
  const Count: nat := 147

  /** The `value` declared for the constant at each position, in declaration order:
      258 to 380 one after another (T_REQUIRE_ONCE .. T_NS_SEPARATOR), then T_DOUBLE_COLON(376),
      T_INSTEADOF(341), T_TRAIT(355), T_CALLABLE(363), T_TRAIT_C(365), then 1000 to 1018
      (T_J_CUSTOM .. T_J_BINARY_CAST). */
  function DeclaredValue(ordinal: nat): int
    requires ordinal < Count
  {
    if ordinal < 123 then 258 + ordinal
    else if ordinal == 123 then 376
    else if ordinal == 124 then 341
    else if ordinal == 125 then 355
    else if ordinal == 126 then 363
    else if ordinal == 127 then 365
    else 1000 + (ordinal - 128)
  }

  /** `TokenType.values()`: every constant, in declaration order. */
  function Values(): seq<TokenType> {
    seq(Count, i requires 0 <= i < Count => TokenType(i, DeclaredValue(i)))
  }

  /** The constants, as declared. */
  const T_REQUIRE_ONCE: TokenType := TokenType(0, 258)
  const T_REQUIRE: TokenType := TokenType(1, 259)
  const T_EVAL: TokenType := TokenType(2, 260)
  const T_INCLUDE_ONCE: TokenType := TokenType(3, 261)
  const T_INCLUDE: TokenType := TokenType(4, 262)
  const T_LOGICAL_OR: TokenType := TokenType(5, 263)
  const T_LOGICAL_XOR: TokenType := TokenType(6, 264)
  const T_LOGICAL_AND: TokenType := TokenType(7, 265)
  const T_PRINT: TokenType := TokenType(8, 266)
  const T_SR_EQUAL: TokenType := TokenType(9, 267)
  const T_SL_EQUAL: TokenType := TokenType(10, 268)
  const T_XOR_EQUAL: TokenType := TokenType(11, 269)
  const T_OR_EQUAL: TokenType := TokenType(12, 270)
  const T_AND_EQUAL: TokenType := TokenType(13, 271)
  const T_MOD_EQUAL: TokenType := TokenType(14, 272)
  const T_CONCAT_EQUAL: TokenType := TokenType(15, 273)
  const T_DIV_EQUAL: TokenType := TokenType(16, 274)
  const T_MUL_EQUAL: TokenType := TokenType(17, 275)
  const T_MINUS_EQUAL: TokenType := TokenType(18, 276)
  const T_PLUS_EQUAL: TokenType := TokenType(19, 277)
  const T_BOOLEAN_OR: TokenType := TokenType(20, 278)
  const T_BOOLEAN_AND: TokenType := TokenType(21, 279)
  const T_IS_NOT_IDENTICAL: TokenType := TokenType(22, 280)
  const T_IS_IDENTICAL: TokenType := TokenType(23, 281)
  const T_IS_NOT_EQUAL: TokenType := TokenType(24, 282)
  const T_IS_EQUAL: TokenType := TokenType(25, 283)
  const T_IS_GREATER_OR_EQUAL: TokenType := TokenType(26, 284)
  const T_IS_SMALLER_OR_EQUAL: TokenType := TokenType(27, 285)
  const T_SR: TokenType := TokenType(28, 286)
  const T_SL: TokenType := TokenType(29, 287)
  const T_INSTANCEOF: TokenType := TokenType(30, 288)
  const T_UNSET_CAST: TokenType := TokenType(31, 289)
  const T_BOOL_CAST: TokenType := TokenType(32, 290)
  const T_OBJECT_CAST: TokenType := TokenType(33, 291)
  const T_ARRAY_CAST: TokenType := TokenType(34, 292)
  const T_STRING_CAST: TokenType := TokenType(35, 293)
  const T_DOUBLE_CAST: TokenType := TokenType(36, 294)
  const T_INT_CAST: TokenType := TokenType(37, 295)
  const T_DEC: TokenType := TokenType(38, 296)
  const T_INC: TokenType := TokenType(39, 297)
  const T_CLONE: TokenType := TokenType(40, 298)
  const T_NEW: TokenType := TokenType(41, 299)
  const T_EXIT: TokenType := TokenType(42, 300)
  const T_IF: TokenType := TokenType(43, 301)
  const T_ELSEIF: TokenType := TokenType(44, 302)
  const T_ELSE: TokenType := TokenType(45, 303)
  const T_ENDIF: TokenType := TokenType(46, 304)
  const T_LNUMBER: TokenType := TokenType(47, 305)
  const T_DNUMBER: TokenType := TokenType(48, 306)
  const T_STRING: TokenType := TokenType(49, 307)
  const T_STRING_VARNAME: TokenType := TokenType(50, 308)
  const T_VARIABLE: TokenType := TokenType(51, 309)
  const T_NUM_STRING: TokenType := TokenType(52, 310)
  const T_INLINE_HTML: TokenType := TokenType(53, 311)
  const T_CHARACTER: TokenType := TokenType(54, 312)
  const T_BAD_CHARACTER: TokenType := TokenType(55, 313)
  const T_ENCAPSED_AND_WHITESPACE: TokenType := TokenType(56, 314)
  const T_CONSTANT_ENCAPSED_STRING: TokenType := TokenType(57, 315)
  const T_ECHO: TokenType := TokenType(58, 316)
  const T_DO: TokenType := TokenType(59, 317)
  const T_WHILE: TokenType := TokenType(60, 318)
  const T_ENDWHILE: TokenType := TokenType(61, 319)
  const T_FOR: TokenType := TokenType(62, 320)
  const T_ENDFOR: TokenType := TokenType(63, 321)
  const T_FOREACH: TokenType := TokenType(64, 322)
  const T_ENDFOREACH: TokenType := TokenType(65, 323)
  const T_DECLARE: TokenType := TokenType(66, 324)
  const T_ENDDECLARE: TokenType := TokenType(67, 325)
  const T_AS: TokenType := TokenType(68, 326)
  const T_SWITCH: TokenType := TokenType(69, 327)
  const T_ENDSWITCH: TokenType := TokenType(70, 328)
  const T_CASE: TokenType := TokenType(71, 329)
  const T_DEFAULT: TokenType := TokenType(72, 330)
  const T_BREAK: TokenType := TokenType(73, 331)
  const T_CONTINUE: TokenType := TokenType(74, 332)
  const T_GOTO: TokenType := TokenType(75, 333)
  const T_FUNCTION: TokenType := TokenType(76, 334)
  const T_CONST: TokenType := TokenType(77, 335)
  const T_RETURN: TokenType := TokenType(78, 336)
  const T_TRY: TokenType := TokenType(79, 337)
  const T_CATCH: TokenType := TokenType(80, 338)
  const T_THROW: TokenType := TokenType(81, 339)
  const T_USE: TokenType := TokenType(82, 340)
  const T_GLOBAL: TokenType := TokenType(83, 341)
  const T_PUBLIC: TokenType := TokenType(84, 342)
  const T_PROTECTED: TokenType := TokenType(85, 343)
  const T_PRIVATE: TokenType := TokenType(86, 344)
  const T_FINAL: TokenType := TokenType(87, 345)
  const T_ABSTRACT: TokenType := TokenType(88, 346)
  const T_STATIC: TokenType := TokenType(89, 347)
  const T_VAR: TokenType := TokenType(90, 348)
  const T_UNSET: TokenType := TokenType(91, 349)
  const T_ISSET: TokenType := TokenType(92, 350)
  const T_EMPTY: TokenType := TokenType(93, 351)
  const T_HALT_COMPILER: TokenType := TokenType(94, 352)
  const T_CLASS: TokenType := TokenType(95, 353)
  const T_INTERFACE: TokenType := TokenType(96, 354)
  const T_EXTENDS: TokenType := TokenType(97, 355)
  const T_IMPLEMENTS: TokenType := TokenType(98, 356)
  const T_OBJECT_OPERATOR: TokenType := TokenType(99, 357)
  const T_DOUBLE_ARROW: TokenType := TokenType(100, 358)
  const T_LIST: TokenType := TokenType(101, 359)
  const T_ARRAY: TokenType := TokenType(102, 360)
  const T_CLASS_C: TokenType := TokenType(103, 361)
  const T_METHOD_C: TokenType := TokenType(104, 362)
  const T_FUNC_C: TokenType := TokenType(105, 363)
  const T_LINE: TokenType := TokenType(106, 364)
  const T_FILE: TokenType := TokenType(107, 365)
  const T_COMMENT: TokenType := TokenType(108, 366)
  const T_DOC_COMMENT: TokenType := TokenType(109, 367)
  const T_OPEN_TAG: TokenType := TokenType(110, 368)
  const T_OPEN_TAG_WITH_ECHO: TokenType := TokenType(111, 369)
  const T_CLOSE_TAG: TokenType := TokenType(112, 370)
  const T_WHITESPACE: TokenType := TokenType(113, 371)
  const T_START_HEREDOC: TokenType := TokenType(114, 372)
  const T_END_HEREDOC: TokenType := TokenType(115, 373)
  const T_DOLLAR_OPEN_CURLY_BRACES: TokenType := TokenType(116, 374)
  const T_CURLY_OPEN: TokenType := TokenType(117, 375)
  const T_PAAMAYIM_NEKUDOTAYIM: TokenType := TokenType(118, 376)
  const T_NAMESPACE: TokenType := TokenType(119, 377)
  const T_NS_C: TokenType := TokenType(120, 378)
  const T_DIR: TokenType := TokenType(121, 379)
  const T_NS_SEPARATOR: TokenType := TokenType(122, 380)
  const T_DOUBLE_COLON: TokenType := TokenType(123, 376)
  const T_INSTEADOF: TokenType := TokenType(124, 341)
  const T_TRAIT: TokenType := TokenType(125, 355)
  const T_CALLABLE: TokenType := TokenType(126, 363)
  const T_TRAIT_C: TokenType := TokenType(127, 365)
  const T_J_CUSTOM: TokenType := TokenType(128, 1000)
  const T_J_BRACE: TokenType := TokenType(129, 1001)
  const T_J_ARRAY_ACCESS: TokenType := TokenType(130, 1002)
  const T_J_ARRAY_PUSH: TokenType := TokenType(131, 1003)
  const T_J_EQUAL: TokenType := TokenType(132, 1004)
  const T_J_BOOLEAN_NOT: TokenType := TokenType(133, 1005)
  const T_J_CLASS_FETCH: TokenType := TokenType(134, 1006)
  const T_J_CONCAT: TokenType := TokenType(135, 1007)
  const T_J_DIV: TokenType := TokenType(136, 1008)
  const T_J_IS_GREATER: TokenType := TokenType(137, 1009)
  const T_J_MINUS: TokenType := TokenType(138, 1010)
  const T_J_MOD: TokenType := TokenType(139, 1011)
  const T_J_MUL: TokenType := TokenType(140, 1012)
  const T_J_PLUS: TokenType := TokenType(141, 1013)
  const T_J_SMALLER: TokenType := TokenType(142, 1014)
  const T_J_UNAR_MINUS: TokenType := TokenType(143, 1015)
  const T_J_FINALLY: TokenType := TokenType(144, 1016)
  const T_J_BOOLEAN_XOR: TokenType := TokenType(145, 1017)
  const T_J_BINARY_CAST: TokenType := TokenType(146, 1018)

  /** The named constants T_REQUIRE_ONCE .. T_SL sit at their positions in `values()`. */
  lemma NamedConstants1()
    ensures Values()[0] == T_REQUIRE_ONCE
    ensures Values()[1] == T_REQUIRE
    ensures Values()[2] == T_EVAL
    ensures Values()[3] == T_INCLUDE_ONCE
    ensures Values()[4] == T_INCLUDE
    ensures Values()[5] == T_LOGICAL_OR
    ensures Values()[6] == T_LOGICAL_XOR
    ensures Values()[7] == T_LOGICAL_AND
    ensures Values()[8] == T_PRINT
    ensures Values()[9] == T_SR_EQUAL
    ensures Values()[10] == T_SL_EQUAL
    ensures Values()[11] == T_XOR_EQUAL
    ensures Values()[12] == T_OR_EQUAL
    ensures Values()[13] == T_AND_EQUAL
    ensures Values()[14] == T_MOD_EQUAL
    ensures Values()[15] == T_CONCAT_EQUAL
    ensures Values()[16] == T_DIV_EQUAL
    ensures Values()[17] == T_MUL_EQUAL
    ensures Values()[18] == T_MINUS_EQUAL
    ensures Values()[19] == T_PLUS_EQUAL
    ensures Values()[20] == T_BOOLEAN_OR
    ensures Values()[21] == T_BOOLEAN_AND
    ensures Values()[22] == T_IS_NOT_IDENTICAL
    ensures Values()[23] == T_IS_IDENTICAL
    ensures Values()[24] == T_IS_NOT_EQUAL
    ensures Values()[25] == T_IS_EQUAL
    ensures Values()[26] == T_IS_GREATER_OR_EQUAL
    ensures Values()[27] == T_IS_SMALLER_OR_EQUAL
    ensures Values()[28] == T_SR
    ensures Values()[29] == T_SL
  {
  }

  /** The named constants T_INSTANCEOF .. T_DO sit at their positions in `values()`. */
  lemma NamedConstants2()
    ensures Values()[30] == T_INSTANCEOF
    ensures Values()[31] == T_UNSET_CAST
    ensures Values()[32] == T_BOOL_CAST
    ensures Values()[33] == T_OBJECT_CAST
    ensures Values()[34] == T_ARRAY_CAST
    ensures Values()[35] == T_STRING_CAST
    ensures Values()[36] == T_DOUBLE_CAST
    ensures Values()[37] == T_INT_CAST
    ensures Values()[38] == T_DEC
    ensures Values()[39] == T_INC
    ensures Values()[40] == T_CLONE
    ensures Values()[41] == T_NEW
    ensures Values()[42] == T_EXIT
    ensures Values()[43] == T_IF
    ensures Values()[44] == T_ELSEIF
    ensures Values()[45] == T_ELSE
    ensures Values()[46] == T_ENDIF
    ensures Values()[47] == T_LNUMBER
    ensures Values()[48] == T_DNUMBER
    ensures Values()[49] == T_STRING
    ensures Values()[50] == T_STRING_VARNAME
    ensures Values()[51] == T_VARIABLE
    ensures Values()[52] == T_NUM_STRING
    ensures Values()[53] == T_INLINE_HTML
    ensures Values()[54] == T_CHARACTER
    ensures Values()[55] == T_BAD_CHARACTER
    ensures Values()[56] == T_ENCAPSED_AND_WHITESPACE
    ensures Values()[57] == T_CONSTANT_ENCAPSED_STRING
    ensures Values()[58] == T_ECHO
    ensures Values()[59] == T_DO
  {
  }

  /** The named constants T_WHILE .. T_STATIC sit at their positions in `values()`. */
  lemma NamedConstants3()
    ensures Values()[60] == T_WHILE
    ensures Values()[61] == T_ENDWHILE
    ensures Values()[62] == T_FOR
    ensures Values()[63] == T_ENDFOR
    ensures Values()[64] == T_FOREACH
    ensures Values()[65] == T_ENDFOREACH
    ensures Values()[66] == T_DECLARE
    ensures Values()[67] == T_ENDDECLARE
    ensures Values()[68] == T_AS
    ensures Values()[69] == T_SWITCH
    ensures Values()[70] == T_ENDSWITCH
    ensures Values()[71] == T_CASE
    ensures Values()[72] == T_DEFAULT
    ensures Values()[73] == T_BREAK
    ensures Values()[74] == T_CONTINUE
    ensures Values()[75] == T_GOTO
    ensures Values()[76] == T_FUNCTION
    ensures Values()[77] == T_CONST
    ensures Values()[78] == T_RETURN
    ensures Values()[79] == T_TRY
    ensures Values()[80] == T_CATCH
    ensures Values()[81] == T_THROW
    ensures Values()[82] == T_USE
    ensures Values()[83] == T_GLOBAL
    ensures Values()[84] == T_PUBLIC
    ensures Values()[85] == T_PROTECTED
    ensures Values()[86] == T_PRIVATE
    ensures Values()[87] == T_FINAL
    ensures Values()[88] == T_ABSTRACT
    ensures Values()[89] == T_STATIC
  {
  }

  /** The named constants T_VAR .. T_NAMESPACE sit at their positions in `values()`. */
  lemma NamedConstants4()
    ensures Values()[90] == T_VAR
    ensures Values()[91] == T_UNSET
    ensures Values()[92] == T_ISSET
    ensures Values()[93] == T_EMPTY
    ensures Values()[94] == T_HALT_COMPILER
    ensures Values()[95] == T_CLASS
    ensures Values()[96] == T_INTERFACE
    ensures Values()[97] == T_EXTENDS
    ensures Values()[98] == T_IMPLEMENTS
    ensures Values()[99] == T_OBJECT_OPERATOR
    ensures Values()[100] == T_DOUBLE_ARROW
    ensures Values()[101] == T_LIST
    ensures Values()[102] == T_ARRAY
    ensures Values()[103] == T_CLASS_C
    ensures Values()[104] == T_METHOD_C
    ensures Values()[105] == T_FUNC_C
    ensures Values()[106] == T_LINE
    ensures Values()[107] == T_FILE
    ensures Values()[108] == T_COMMENT
    ensures Values()[109] == T_DOC_COMMENT
    ensures Values()[110] == T_OPEN_TAG
    ensures Values()[111] == T_OPEN_TAG_WITH_ECHO
    ensures Values()[112] == T_CLOSE_TAG
    ensures Values()[113] == T_WHITESPACE
    ensures Values()[114] == T_START_HEREDOC
    ensures Values()[115] == T_END_HEREDOC
    ensures Values()[116] == T_DOLLAR_OPEN_CURLY_BRACES
    ensures Values()[117] == T_CURLY_OPEN
    ensures Values()[118] == T_PAAMAYIM_NEKUDOTAYIM
    ensures Values()[119] == T_NAMESPACE
  {
  }

  /** The named constants T_NS_C .. T_J_BOOLEAN_NOT sit at their positions in `values()`. */
  lemma NamedConstants5()
    ensures Values()[120] == T_NS_C
    ensures Values()[121] == T_DIR
    ensures Values()[122] == T_NS_SEPARATOR
    ensures Values()[123] == T_DOUBLE_COLON
    ensures Values()[124] == T_INSTEADOF
    ensures Values()[125] == T_TRAIT
    ensures Values()[126] == T_CALLABLE
    ensures Values()[127] == T_TRAIT_C
    ensures Values()[128] == T_J_CUSTOM
    ensures Values()[129] == T_J_BRACE
    ensures Values()[130] == T_J_ARRAY_ACCESS
    ensures Values()[131] == T_J_ARRAY_PUSH
    ensures Values()[132] == T_J_EQUAL
    ensures Values()[133] == T_J_BOOLEAN_NOT
  {
  }

  /** The named constants T_J_CLASS_FETCH .. T_J_BINARY_CAST sit at their positions in `values()`. */
  lemma NamedConstants6()
    ensures Values()[134] == T_J_CLASS_FETCH
    ensures Values()[135] == T_J_CONCAT
    ensures Values()[136] == T_J_DIV
    ensures Values()[137] == T_J_IS_GREATER
    ensures Values()[138] == T_J_MINUS
    ensures Values()[139] == T_J_MOD
    ensures Values()[140] == T_J_MUL
    ensures Values()[141] == T_J_PLUS
    ensures Values()[142] == T_J_SMALLER
    ensures Values()[143] == T_J_UNAR_MINUS
    ensures Values()[144] == T_J_FINALLY
    ensures Values()[145] == T_J_BOOLEAN_XOR
    ensures Values()[146] == T_J_BINARY_CAST
  {
  }

  /** The map the static initializer fills: `put(t.value, t)` for each constant of `ts`
      in order, so a later constant replaces an earlier one that has the same code. */
  function Table(ts: seq<TokenType>): (m: map<int, TokenType>)
    ensures forall n :: n in m ==> m[n].value == n
  {
    if ts == [] then map[] else Table(ts[..|ts| - 1])[ts[|ts| - 1].value := ts[|ts| - 1]]
  }

  /** The static initializer's loop over `values()`. */
  method BuildTable(values: seq<TokenType>) returns (m: map<int, TokenType>)
    ensures m == Table(values)
  {
    m := map[];
    for i := 0 to |values|
      invariant m == Table(values[..i])
    {
      assert values[..i + 1][..i] == values[..i];
      m := m[values[i].value := values[i]];
    }
    assert values[..|values|] == values;
  }

  /** `TokenType.valueOf(int)`: the constant the table holds for a code, if any. */
  function ValueOf(typeNo: int): (r: Option<TokenType>)
    ensures r.Some? ==> r.value.value == typeNo
  {
    if typeNo in Table(Values()) then Some(Table(Values())[typeNo]) else None
  }

  /** A code is in the table exactly when some constant has it. */
  lemma {:induction false} TableKeys(ts: seq<TokenType>, n: int)
    ensures n in Table(ts) <==> exists i :: 0 <= i < |ts| && ts[i].value == n
  {
    if ts != [] {
      var init := ts[..|ts| - 1];
      TableKeys(init, n);
      assert forall i :: 0 <= i < |init| ==> init[i] == ts[i];
    }
  }

  /** The constant with the code that no later constant has is the one stored. */
  lemma {:induction false} TableHoldsLast(ts: seq<TokenType>, n: int, i: nat)
    requires i < |ts| && ts[i].value == n
    requires forall j :: i < j < |ts| ==> ts[j].value != n
    ensures n in Table(ts) && Table(ts)[n] == ts[i]
  {
    if i < |ts| - 1 {
      var init := ts[..|ts| - 1];
      TableHoldsLast(init, n, i);
    }
  }

  /** A code is in the table exactly when some constant of `ts` has it, and then it is
      mapped to the last constant of `ts` that has it. */
  lemma TableLastWins(ts: seq<TokenType>, n: int)
    ensures n in Table(ts) <==> exists i :: 0 <= i < |ts| && ts[i].value == n
    ensures forall i :: 0 <= i < |ts| && ts[i].value == n &&
                        (forall j :: i < j < |ts| ==> ts[j].value != n) ==>
                          n in Table(ts) && Table(ts)[n] == ts[i]
    ensures n in Table(ts) ==>
              exists i :: 0 <= i < |ts| && Table(ts)[n] == ts[i] && ts[i].value == n &&
                          forall j :: i < j < |ts| ==> ts[j].value != n
  {
    TableKeys(ts, n);
    forall i | 0 <= i < |ts| && ts[i].value == n && (forall j :: i < j < |ts| ==> ts[j].value != n)
      ensures n in Table(ts) && Table(ts)[n] == ts[i]
    {
      TableHoldsLast(ts, n, i);
    }
    if n in Table(ts) {
      var i := LastWith(ts, n);
      TableHoldsLast(ts, n, i);
    }
  }

  /** The position of the last constant with code `n`, given that one has it. */
  function LastWith(ts: seq<TokenType>, n: int): (i: nat)
    requires exists i :: 0 <= i < |ts| && ts[i].value == n
    ensures i < |ts| && ts[i].value == n && forall j :: i < j < |ts| ==> ts[j].value != n
    decreases |ts|
  {
    if ts[|ts| - 1].value == n then |ts| - 1
    else
      var init := ts[..|ts| - 1];
      assert exists i :: 0 <= i < |init| && init[i].value == n by {
        var i :| 0 <= i < |ts| && ts[i].value == n;
        assert init[i] == ts[i];
      }
      LastWith(init, n)
  }

  /** `valueOf(n)` is the constant at position `k` exactly when that constant's code is
      `n` and no constant declared after it has code `n`: the last declaration wins. */
  lemma ValueOfIsLastDeclared(n: int, k: nat)
    requires k < Count
    ensures ValueOf(n) == Some(Values()[k]) <==>
              DeclaredValue(k) == n && forall j :: k < j < Count ==> DeclaredValue(j) != n
  {
    var vs := Values();
    TableLastWins(vs, n);
    assert forall j :: 0 <= j < Count ==> vs[j].value == DeclaredValue(j);
    if ValueOf(n) == Some(vs[k]) {
      var i :| 0 <= i < |vs| && Table(vs)[n] == vs[i] && vs[i].value == n &&
               forall j :: i < j < |vs| ==> vs[j].value != n;
      assert vs[i].ordinal == i && vs[k].ordinal == k;
    }
  }

  /** `valueOf(n)` returns a constant exactly for the declared codes, which lie in
      258..380 and 1000..1018; every other code gives `null`. */
  lemma DeclaredCodeRanges(n: int)
    ensures ValueOf(n).Some? <==> (258 <= n <= 380 || 1000 <= n <= 1018)
  {
    var vs := Values();
    TableLastWins(vs, n);
    if 258 <= n <= 380 {
      assert vs[n - 258].value == n;
    } else if 1000 <= n <= 1018 {
      assert vs[n - 1000 + 128].value == n;
    }
  }

  /** The five constants whose code a later declaration reuses. */
  const Shadowed: set<TokenType> :=
    {T_GLOBAL, T_EXTENDS, T_FUNC_C, T_FILE, T_PAAMAYIM_NEKUDOTAYIM}

  /** Each reused code resolves to the constant declared later; for instance
      `valueOf(376)` is T_DOUBLE_COLON, not T_PAAMAYIM_NEKUDOTAYIM. */
  lemma ShadowedCodes()
    ensures ValueOf(341) == Some(T_INSTEADOF)
    ensures ValueOf(355) == Some(T_TRAIT)
    ensures ValueOf(363) == Some(T_CALLABLE)
    ensures ValueOf(365) == Some(T_TRAIT_C)
    ensures ValueOf(376) == Some(T_DOUBLE_COLON)
  {
    NamedConstants5();
    ValueOfIsLastDeclared(341, T_INSTEADOF.ordinal);
    ValueOfIsLastDeclared(355, T_TRAIT.ordinal);
    ValueOfIsLastDeclared(363, T_CALLABLE.ordinal);
    ValueOfIsLastDeclared(365, T_TRAIT_C.ordinal);
    ValueOfIsLastDeclared(376, T_DOUBLE_COLON.ordinal);
  }

  /** `valueOf(t.value) == t` holds for a declared constant exactly when it is not one of
      the five shadowed ones. */
  lemma RoundTrip(t: TokenType)
    requires t in Values()
    ensures ValueOf(t.value) == Some(t) <==> t !in Shadowed
  {
    var vs := Values();
    var k :| 0 <= k < |vs| && vs[k] == t;
    ValueOfIsLastDeclared(t.value, k);
    if k in {83, 97, 105, 107, 118} {
      var later := if k == 83 then 124 else if k == 97 then 125 else if k == 105 then 126
                   else if k == 107 then 127 else 123;
      assert DeclaredValue(later) == DeclaredValue(k);
      assert t in Shadowed;
    } else {
      forall j | k < j < Count
        ensures DeclaredValue(j) != DeclaredValue(k)
      {
      }
      assert t !in Shadowed;
    }
  }
}
