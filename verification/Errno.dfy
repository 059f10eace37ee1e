/**
 The error numbers the modelled calls return, negated (kernel/include/tunix/errno.h).
 */
module Errno {
  const EPERM: int := 1
  const ENOENT: int := 2
  const ESRCH: int := 3
  const EINTR: int := 4
  const EAGAIN: int := 11
  const EACCES: int := 13
  const EINVAL: int := 22
  const ENAMETOOLONG: int := 36
  const EMSGSIZE: int := 90
  const ETIMEDOUT: int := 110
}
