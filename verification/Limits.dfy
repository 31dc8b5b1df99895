/** Constants that several transfers share. */
module Limits {

  const MaxRetries: nat := 3
}
