/** The header that all ACPI tables but the FACS share (section 5.2.6 of ACPI 6.5). */
module Acpi {
  const HEADER_SIZE: nat := 36
  const CHECKSUM_OFFSET: nat := 9
}
