/** The codes of the binary language. */
module BlrVerbs {
  import opened Bytes

  // Data types of descriptors
  const BLR_SHORT: byte := 7
  const BLR_LONG: byte := 8
  const BLR_QUAD: byte := 9
  const BLR_FLOAT: byte := 10
  const BLR_D_FLOAT: byte := 11
  const BLR_SQL_DATE: byte := 12
  const BLR_SQL_TIME: byte := 13
  const BLR_TEXT: byte := 14
  const BLR_TEXT2: byte := 15
  const BLR_INT64: byte := 16
  const BLR_DOUBLE: byte := 27
  const BLR_TIMESTAMP: byte := 35
  const BLR_VARYING: byte := 37
  const BLR_VARYING2: byte := 38
  const BLR_CSTRING: byte := 40
  const BLR_CSTRING2: byte := 41

  /** A type code beyond a byte, for blob fields only. */
  const BLR_BLOB: nat := 261

  // Statements
  const BLR_ASSIGNMENT: byte := 1
  const BLR_BEGIN: byte := 2
  const BLR_VERSION4: byte := 4
  const BLR_VERSION5: byte := 5
  const BLR_MESSAGE: byte := 4
  const BLR_ERASE: byte := 5
  const BLR_FOR: byte := 7
  const BLR_IF: byte := 8
  const BLR_LOOP: byte := 9
  const BLR_MODIFY: byte := 10
  const BLR_LABEL: byte := 17
  const BLR_LEAVE: byte := 18
  const BLR_EOC: byte := 76
  const BLR_END: byte := 255

  // Record selection
  const BLR_RSE: byte := 67
  const BLR_BOOLEAN: byte := 71
  const BLR_RELATION: byte := 74

  // Values and booleans
  const BLR_LITERAL: byte := 21
  const BLR_DBKEY: byte := 22
  const BLR_FIELD: byte := 23
  const BLR_FID: byte := 24
  const BLR_PARAMETER: byte := 25
  const BLR_VARIABLE: byte := 26
  const BLR_ADD: byte := 34
  const BLR_SUBTRACT: byte := 35
  const BLR_MULTIPLY: byte := 36
  const BLR_DIVIDE: byte := 37
  const BLR_NEGATE: byte := 38
  const BLR_CONCATENATE: byte := 39
  const BLR_SUBSTRING: byte := 40
  const BLR_PARAMETER2: byte := 41
  const BLR_USER_NAME: byte := 44
  const BLR_NULL: byte := 45
  const BLR_EQL: byte := 47
  const BLR_NEQ: byte := 48
  const BLR_GTR: byte := 49
  const BLR_GEQ: byte := 50
  const BLR_LSS: byte := 51
  const BLR_LEQ: byte := 52
  const BLR_CONTAINING: byte := 53
  const BLR_STARTING: byte := 55
  const BLR_BETWEEN: byte := 56
  const BLR_OR: byte := 57
  const BLR_AND: byte := 58
  const BLR_NOT: byte := 59
  const BLR_MISSING: byte := 61
  const BLR_LIKE: byte := 63
  const BLR_UPCASE: byte := 103
  const BLR_VALUE_IF: byte := 105
  const BLR_INDEX: byte := 107
  const BLR_ANSI_LIKE: byte := 108
  const BLR_CAST: byte := 131
  const BLR_RECORD_VERSION: byte := 154
  const BLR_EXTRACT: byte := 159
  const BLR_CURRENT_DATE: byte := 160
  const BLR_CURRENT_TIMESTAMP: byte := 161
  const BLR_CURRENT_TIME: byte := 162
  const BLR_CURRENT_ROLE: byte := 174
  const BLR_INTERNAL_INFO: byte := 177
}
