/** Error numbers and sizes that several parts of the emulator share. */
module Constants {
  const EIO := 5
  const EAGAIN := 11
  const EACCES := 13
  const EINVAL := 22
  const ENOTSUP := 95
  const ENOMEDIUM := 123

  const SECTOR := 512 // BDRV_SECTOR_SIZE, qemu/block.h:41
}
