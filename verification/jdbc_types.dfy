/** The JDBC type codes the descriptor is seeded with, as defined by java.sql.Types. */
module JdbcTypes {

  /** A Java `int`. Type codes and the identifier length limit are Java ints. */
  newtype Int32 = x: int | -0x8000_0000 <= x < 0x8000_0000

  const CHAR: Int32 := 1
  const VARCHAR: Int32 := 12
  const LONGVARCHAR: Int32 := -1
  const CLOB: Int32 := 2005
  const BINARY: Int32 := -2
  const VARBINARY: Int32 := -3
  const LONGVARBINARY: Int32 := -4
  const BLOB: Int32 := 2004
  const DECIMAL: Int32 := 3
  const NUMERIC: Int32 := 2
}
